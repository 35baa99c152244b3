/** Worked examples of the enrichment on concrete instants of
    2023-06-15 (UTC). */
module Scenarios {
  import opened Wrappers
  import opened Vigilance
  import opened Enrichment
  import Calendar
  import TimestampFormat
  import Decimal

  /** Seconds since the epoch of 2023-06-15 at `h`:`mi`:`s` UTC. */
  function June15(h: int, mi: int, s: int): int
    requires 0 <= h < 24 && 0 <= mi < 60 && 0 <= s < 60
  {
    Calendar.ToSeconds(Calendar.DateTime(2023, 6, 15, h, mi, s))
  }

  /** The one alert of the examples: phenomenon 2, level 3, from 08:00:00
      to 12:00:00 (or to `endHour`:00:00). */
  function Storm(endHour: int): Alert
    requires 0 <= endHour < 24
  {
    Alert(2, June15(8, 0, 0), June15(endHour, 0, 0), Some(3))
  }

  /** The fields of 2023-06-15 10:00:00 are printed zero-padded. */
  lemma FormattedFields()
    ensures TimestampFormat.Format(Calendar.DateTime(2023, 6, 15, 10, 0, 0)) == "2023-06-15 10:00:00"
  {
    assert Decimal.Pad(2023, 4) == "2023";
    assert Decimal.Pad(6, 2) == "06";
    assert Decimal.Pad(15, 2) == "15";
    assert Decimal.Pad(10, 2) == "10";
    assert Decimal.Pad(0, 2) == "00";
    assert TimestampFormat.Format(Calendar.DateTime(2023, 6, 15, 10, 0, 0))
        == TimestampFormat.Join("2023", "06", "15", "10", "00", "00");
    JoinedFields();
  }

  lemma JoinedFields()
    ensures TimestampFormat.Join("2023", "06", "15", "10", "00", "00") == "2023-06-15 10:00:00"
  {
  }

  /** The `datetime` text of a row whose instant is 2023-06-15 10:00:00. */
  lemma RenderedInstant(t: int, text: string)
    requires t == June15(10, 0, 0)
    requires TimestampFormat.Parse(text) == Some(Calendar.FromSeconds(t))
    ensures text == "2023-06-15 10:00:00"
  {
    var dt := Calendar.DateTime(2023, 6, 15, 10, 0, 0);
    Calendar.FromSecondsRoundTrip(dt);
    assert Calendar.FromSeconds(t) == dt;
    TimestampFormat.FormatParse(text);
    FormattedFields();
  }

  /** A row at any instant from 08:00:00 to 12:00:00, the span of the alert
      of phenomenon 2, gets level 3 in `phenomene_2`; phenomenon 4, which
      has no alert, gets the default in `phenomene_4`. */
  lemma CoveredRow(t: int, precipitation: real, temperature: real)
    requires June15(8, 0, 0) <= t <= June15(12, 0, 0)
    ensures Calendar.InPandasRange(t)
    ensures var r := CreateWeatherPhenomenaDataset([Observation(t, precipitation, temperature)], [Storm(12)], 7);
            && |r.rows| == 1
            && r.rows[0].phenomena[1] == 3
            && r.rows[0].phenomena[3] == DefaultLevel
  {
    assert IsFirstCover([Storm(12)], 2, t, 0);
    assert Uncovered([Storm(12)], 4, t);
  }

  /** Both ends of an interval belong to it; one second past the end does
      not. */
  lemma InclusiveEnds()
    ensures Resolve([Storm(13)], 2, June15(8, 0, 0)) == 3
    ensures Resolve([Storm(13)], 2, June15(13, 0, 0)) == 3
    ensures Resolve([Storm(13)], 2, June15(13, 0, 1)) == DefaultLevel
    ensures Resolve([Storm(13)], 2, June15(7, 59, 59)) == DefaultLevel
  {
    assert IsFirstCover([Storm(13)], 2, June15(8, 0, 0), 0);
    assert IsFirstCover([Storm(13)], 2, June15(13, 0, 0), 0);
  }

  /** An interval whose start is after its end is not rejected: it holds
      no instant, so the row gets the default. */
  lemma ReversedIntervalMatchesNothing()
    ensures Resolve([Alert(2, June15(12, 0, 0), June15(10, 0, 0), Some(3))], 2, June15(11, 0, 0))
            == DefaultLevel
  {
  }

  /** Of two overlapping alerts of one phenomenon the earlier in the alert
      table wins, whichever level is higher. */
  lemma FirstInTableWins()
    ensures var low := Alert(2, June15(8, 0, 0), June15(12, 0, 0), Some(2));
            var high := Alert(2, June15(9, 0, 0), June15(11, 0, 0), Some(4));
            && Resolve([low, high], 2, June15(10, 0, 0)) == 2
            && Resolve([high, low], 2, June15(10, 0, 0)) == 4
  {
    var low := Alert(2, June15(8, 0, 0), June15(12, 0, 0), Some(2));
    var high := Alert(2, June15(9, 0, 0), June15(11, 0, 0), Some(4));
    assert IsFirstCover([low, high], 2, June15(10, 0, 0), 0);
    assert IsFirstCover([high, low], 2, June15(10, 0, 0), 0);
  }

  /** A matching alert whose level is missing yields the default after the
      final fill, not a gap. */
  lemma MissingLevelFilled()
    ensures Lookup([Alert(2, June15(8, 0, 0), June15(12, 0, 0), None)], 2, June15(10, 0, 0)) == None
    ensures Resolve([Alert(2, June15(8, 0, 0), June15(12, 0, 0), None)], 2, June15(10, 0, 0)) == DefaultLevel
  {
    assert IsFirstCover([Alert(2, June15(8, 0, 0), June15(12, 0, 0), None)], 2, June15(10, 0, 0), 0);
  }
}
