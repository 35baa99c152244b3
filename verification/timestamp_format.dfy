/** The canonical text of a timestamp in the enriched table: the
    `%Y-%m-%d %H:%M:%S` pattern of `strftime`, e.g. `2023-06-15 10:00:00`. */
module TimestampFormat {
  import opened Wrappers
  import opened Decimal
  import Calendar

  /** A date and time whose `%Y` field is exactly four digits wide. */
  predicate Renderable(dt: Calendar.DateTime) {
    Calendar.Valid(dt) && 1000 <= dt.year <= 9999
  }

  /** Positions of the separators '-', '-', ' ', ':', ':' in a rendering. */
  predicate IsSeparatorIndex(i: int) {
    i == 4 || i == 7 || i == 10 || i == 13 || i == 16
  }

  /** The shape every rendering has: 19 characters, separators at fixed
      positions, a digit everywhere else. */
  predicate WellShaped(s: string) {
    && |s| == 19
    && s[4] == '-' && s[7] == '-' && s[10] == ' ' && s[13] == ':' && s[16] == ':'
    && forall i :: 0 <= i < 19 && !IsSeparatorIndex(i) ==> IsDigit(s[i])
  }

  /** The six fields joined by the separators of the pattern. */
  function Join(year: string, month: string, day: string, hour: string, minute: string, second: string)
    : string
  {
    year + "-" + month + "-" + day + " " + hour + ":" + minute + ":" + second
  }

  /** A well-shaped string is the join of its six digit fields. */
  lemma JoinOfFields(s: string)
    requires WellShaped(s)
    ensures Join(s[0..4], s[5..7], s[8..10], s[11..13], s[14..16], s[17..19]) == s
  {
    var j := Join(s[0..4], s[5..7], s[8..10], s[11..13], s[14..16], s[17..19]);
    assert |j| == 19;
    forall i | 0 <= i < 19
      ensures j[i] == s[i]
    {
    }
  }

  /** The fields of a join sit at the fixed positions of the pattern. */
  lemma FieldsOfJoin(year: string, month: string, day: string, hour: string, minute: string, second: string)
    requires |year| == 4 && |month| == 2 && |day| == 2 && |hour| == 2 && |minute| == 2 && |second| == 2
    ensures var s := Join(year, month, day, hour, minute, second);
            && |s| == 19
            && s[0..4] == year && s[5..7] == month && s[8..10] == day
            && s[11..13] == hour && s[14..16] == minute && s[17..19] == second
            && s[4] == '-' && s[7] == '-' && s[10] == ' ' && s[13] == ':' && s[16] == ':'
  {
  }

  function Format(dt: Calendar.DateTime): (s: string)
    requires Renderable(dt)
    ensures WellShaped(s)
  {
    var s := Join(Pad(dt.year, 4), Pad(dt.month, 2), Pad(dt.day, 2),
                  Pad(dt.hour, 2), Pad(dt.minute, 2), Pad(dt.second, 2));
    FieldsOfJoin(Pad(dt.year, 4), Pad(dt.month, 2), Pad(dt.day, 2),
                 Pad(dt.hour, 2), Pad(dt.minute, 2), Pad(dt.second, 2));
    assert forall i :: 0 <= i < 4 ==> s[i] == s[0..4][i];
    assert forall i :: 5 <= i < 7 ==> s[i] == s[5..7][i - 5];
    assert forall i :: 8 <= i < 10 ==> s[i] == s[8..10][i - 8];
    assert forall i :: 11 <= i < 13 ==> s[i] == s[11..13][i - 11];
    assert forall i :: 14 <= i < 16 ==> s[i] == s[14..16][i - 14];
    assert forall i :: 17 <= i < 19 ==> s[i] == s[17..19][i - 17];
    s
  }

  /** Reads a rendering back; `None` for any string that is not the
      rendering of a valid four-digit-year date and time. */
  function Parse(s: string): (r: Option<Calendar.DateTime>)
    ensures r.Some? ==> Renderable(r.value) && WellShaped(s)
  {
    if !WellShaped(s) then None
    else
      var dt := Calendar.DateTime(Value(s[0..4]), Value(s[5..7]), Value(s[8..10]),
                                  Value(s[11..13]), Value(s[14..16]), Value(s[17..19]));
      if Renderable(dt) then Some(dt) else None
  }

  /** Rendering loses nothing: the fields are read back unchanged. */
  lemma ParseFormat(dt: Calendar.DateTime)
    requires Renderable(dt)
    ensures Parse(Format(dt)) == Some(dt)
  {
    ValueOfPad(dt.year, 4);
    ValueOfPad(dt.month, 2);
    ValueOfPad(dt.day, 2);
    ValueOfPad(dt.hour, 2);
    ValueOfPad(dt.minute, 2);
    ValueOfPad(dt.second, 2);
    FieldsOfJoin(Pad(dt.year, 4), Pad(dt.month, 2), Pad(dt.day, 2),
                 Pad(dt.hour, 2), Pad(dt.minute, 2), Pad(dt.second, 2));
  }

  /** A field of a well-shaped string is all digits. */
  lemma DigitField(s: string, lo: int, hi: int)
    requires WellShaped(s)
    requires (lo, hi) in {(0, 4), (5, 7), (8, 10), (11, 13), (14, 16), (17, 19)}
    ensures AllDigits(s[lo..hi])
  {
    forall i | 0 <= i < hi - lo
      ensures IsDigit(s[lo..hi][i])
    {
      assert s[lo..hi][i] == s[lo + i];
      assert !IsSeparatorIndex(lo + i);
    }
  }

  /** The only string that reads back as `dt` is `dt`'s rendering: the
      format is canonical. */
  lemma FormatParse(s: string)
    requires Parse(s).Some?
    ensures Format(Parse(s).value) == s
  {
    DigitField(s, 0, 4);
    DigitField(s, 5, 7);
    DigitField(s, 8, 10);
    DigitField(s, 11, 13);
    DigitField(s, 14, 16);
    DigitField(s, 17, 19);
    PadOfValue(s[0..4]);
    PadOfValue(s[5..7]);
    PadOfValue(s[8..10]);
    PadOfValue(s[11..13]);
    PadOfValue(s[14..16]);
    PadOfValue(s[17..19]);
    JoinOfFields(s);
  }

  /** The text of instant `t` in the enriched table's `datetime` column:
      its UTC wall-clock fields, rendered. */
  function Render(t: int): (s: string)
    requires Calendar.InPandasRange(t)
    ensures WellShaped(s)
    ensures Parse(s) == Some(Calendar.FromSeconds(t))
  {
    Calendar.PandasRangeYears(t);
    ParseFormat(Calendar.FromSeconds(t));
    Format(Calendar.FromSeconds(t))
  }

  /** Two instants pandas can hold render alike only when they are the
      same instant. */
  lemma RenderInjective(s: int, t: int)
    requires Calendar.InPandasRange(s) && Calendar.InPandasRange(t)
    ensures Render(s) == Render(t) <==> s == t
  {
    if Render(s) == Render(t) {
      assert Calendar.FromSeconds(s) == Calendar.FromSeconds(t);
      Calendar.FromSecondsInjective(s, t);
    }
  }
}
