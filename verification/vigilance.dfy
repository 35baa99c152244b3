/** Resolution of one phenomenon's vigilance level at one instant: the
    per-phenomenon partition of the alert table and the per-row lookup
    `get_vigilance`, followed by the final fill of missing levels. */
module Vigilance {
  import opened Wrappers

  /** The level that means "no active alert". */
  const DefaultLevel := 1

  /** One row of the alert table: phenomenon id, the closed interval
      [start, end] in seconds since the epoch (UTC), and the vigilance
      level, which may be missing (NaN). */
  datatype Alert = Alert(phenomenon: int, start: int, end: int, level: Option<int>)

  /** The boolean mask of the lookup: the interval holds `t`, both ends
      included. An alert with start > end holds no instant. */
  predicate Covers(a: Alert, t: int) {
    a.start <= t && t <= a.end
  }

  /** Alert `i` is the earliest alert of phenomenon `id` whose interval
      holds `t`, in the order of the alert table. */
  predicate IsFirstCover(alerts: seq<Alert>, id: int, t: int, i: int) {
    && 0 <= i < |alerts|
    && alerts[i].phenomenon == id && Covers(alerts[i], t)
    && forall j :: 0 <= j < i ==> !(alerts[j].phenomenon == id && Covers(alerts[j], t))
  }

  /** No alert of phenomenon `id` holds `t`. */
  predicate Uncovered(alerts: seq<Alert>, id: int, t: int) {
    forall j :: 0 <= j < |alerts| ==> !(alerts[j].phenomenon == id && Covers(alerts[j], t))
  }

  /** The alerts of phenomenon `id`, in their original order. */
  function OfPhenomenon(alerts: seq<Alert>, id: int): (r: seq<Alert>)
    ensures |r| <= |alerts|
    ensures forall a :: a in r <==> a in alerts && a.phenomenon == id
  {
    if |alerts| == 0 then []
    else (if alerts[0].phenomenon == id then [alerts[0]] else []) + OfPhenomenon(alerts[1..], id)
  }

  /** The alerts whose interval holds `t`, in their original order. */
  function Matching(alerts: seq<Alert>, t: int): (r: seq<Alert>)
    ensures |r| <= |alerts|
    ensures forall a :: a in r <==> a in alerts && Covers(a, t)
  {
    if |alerts| == 0 then []
    else (if Covers(alerts[0], t) then [alerts[0]] else []) + Matching(alerts[1..], t)
  }

  /** Alert `i` is the earliest alert of the sequence whose interval
      holds `t`. */
  predicate IsFirstMatch(alerts: seq<Alert>, t: int, i: int) {
    0 <= i < |alerts| && Covers(alerts[i], t) && forall j :: 0 <= j < i ==> !Covers(alerts[j], t)
  }

  /** No interval of the sequence holds `t`. */
  predicate NoMatch(alerts: seq<Alert>, t: int) {
    forall j :: 0 <= j < |alerts| ==> !Covers(alerts[j], t)
  }

  lemma NoMatchCons(alerts: seq<Alert>, t: int)
    requires |alerts| > 0
    ensures NoMatch(alerts, t) <==> !Covers(alerts[0], t) && NoMatch(alerts[1..], t)
  {
    if !Covers(alerts[0], t) && NoMatch(alerts[1..], t) {
      forall j | 0 <= j < |alerts| ensures !Covers(alerts[j], t) {
        if j > 0 {
          assert alerts[j] == alerts[1..][j - 1];
        }
      }
    }
  }

  lemma FirstMatchCons(alerts: seq<Alert>, t: int, i: int)
    requires IsFirstMatch(alerts, t, i) && i > 0
    ensures IsFirstMatch(alerts[1..], t, i - 1)
  {
  }

  /** The head of the matching alerts is the earliest alert whose interval
      holds `t`; there is none exactly when no interval holds `t`. */
  lemma {:induction false} MatchingHead(alerts: seq<Alert>, t: int)
    ensures |Matching(alerts, t)| == 0 <==> NoMatch(alerts, t)
    ensures forall i :: IsFirstMatch(alerts, t, i) ==> Matching(alerts, t)[0] == alerts[i]
  {
    if |alerts| > 0 {
      MatchingHead(alerts[1..], t);
      NoMatchCons(alerts, t);
      forall i | IsFirstMatch(alerts, t, i)
        ensures Matching(alerts, t)[0] == alerts[i]
      {
        if i > 0 {
          FirstMatchCons(alerts, t, i);
        }
      }
    }
  }

  /** The per-row lookup over one phenomenon's alerts: the level of the
      first alert in table order whose interval holds `t` (possibly
      missing), or the default when none does. */
  function GetVigilance(phenomAlerts: seq<Alert>, t: int): (v: Option<int>)
    ensures NoMatch(phenomAlerts, t) ==> v == Some(DefaultLevel)
    ensures forall i :: IsFirstMatch(phenomAlerts, t, i) ==> v == phenomAlerts[i].level
  {
    MatchingHead(phenomAlerts, t);
    var matching := Matching(phenomAlerts, t);
    if |matching| > 0 then matching[0].level else Some(DefaultLevel)
  }

  /** `Uncovered` on a non-empty table, split at its first alert. */
  lemma UncoveredCons(alerts: seq<Alert>, id: int, t: int)
    requires |alerts| > 0
    ensures Uncovered(alerts, id, t) <==>
              !(alerts[0].phenomenon == id && Covers(alerts[0], t)) && Uncovered(alerts[1..], id, t)
  {
    var rest := alerts[1..];
    if !(alerts[0].phenomenon == id && Covers(alerts[0], t)) && Uncovered(rest, id, t) {
      forall j | 0 <= j < |alerts|
        ensures !(alerts[j].phenomenon == id && Covers(alerts[j], t))
      {
        if j > 0 {
          assert alerts[j] == rest[j - 1];
        }
      }
    }
  }

  /** The earliest cover after the first alert is the earliest cover of
      the rest of the table, shifted by one. */
  lemma FirstCoverCons(alerts: seq<Alert>, id: int, t: int, i: int)
    requires IsFirstCover(alerts, id, t, i) && i > 0
    ensures IsFirstCover(alerts[1..], id, t, i - 1)
  {
  }

  /** Filtering by phenomenon, then by coverage, and taking the head finds
      exactly the earliest covering alert of that phenomenon in the whole
      table. */
  lemma {:induction false} MatchingOfPhenomenon(alerts: seq<Alert>, id: int, t: int)
    ensures |Matching(OfPhenomenon(alerts, id), t)| == 0 <==> Uncovered(alerts, id, t)
    ensures forall i :: IsFirstCover(alerts, id, t, i) ==>
              |Matching(OfPhenomenon(alerts, id), t)| > 0
              && Matching(OfPhenomenon(alerts, id), t)[0] == alerts[i]
  {
    if |alerts| > 0 {
      var a0, rest := alerts[0], alerts[1..];
      MatchingOfPhenomenon(rest, id, t);
      UncoveredCons(alerts, id, t);
      var p := OfPhenomenon(alerts, id);
      var pr := OfPhenomenon(rest, id);
      if a0.phenomenon == id {
        assert p == [a0] + pr;
        assert p[1..] == pr;
      } else {
        assert p == pr;
      }
      forall i | IsFirstCover(alerts, id, t, i)
        ensures |Matching(p, t)| > 0 && Matching(p, t)[0] == alerts[i]
      {
        if i > 0 {
          FirstCoverCons(alerts, id, t, i);
        }
      }
    }
  }

  /** Some alert of phenomenon `id` holds `t` exactly when there is an
      earliest such alert. */
  lemma {:induction false} FirstCoverExists(alerts: seq<Alert>, id: int, t: int)
    ensures !Uncovered(alerts, id, t) <==> exists i :: IsFirstCover(alerts, id, t, i)
  {
    if |alerts| > 0 && !Uncovered(alerts, id, t) {
      if alerts[0].phenomenon == id && Covers(alerts[0], t) {
        assert IsFirstCover(alerts, id, t, 0);
      } else {
        var rest := alerts[1..];
        assert !Uncovered(rest, id, t) by {
          var j :| 0 <= j < |alerts| && alerts[j].phenomenon == id && Covers(alerts[j], t);
          assert rest[j - 1] == alerts[j];
        }
        FirstCoverExists(rest, id, t);
        var i :| IsFirstCover(rest, id, t, i);
        assert IsFirstCover(alerts, id, t, i + 1);
      }
    }
  }

  /** The cell of column `phenomene_<id>` for instant `t` before the final
      fill: the default when the phenomenon has no alert at all (the short
      cut), otherwise what the per-row lookup returns. */
  function Lookup(alerts: seq<Alert>, id: int, t: int): (v: Option<int>)
    ensures Uncovered(alerts, id, t) ==> v == Some(DefaultLevel)
    ensures forall i :: IsFirstCover(alerts, id, t, i) ==> v == alerts[i].level
  {
    MatchingOfPhenomenon(alerts, id, t);
    var phenomAlerts := OfPhenomenon(alerts, id);
    if |phenomAlerts| == 0 then Some(DefaultLevel) else GetVigilance(phenomAlerts, t)
  }

  /** The cell of column `phenomene_<id>` for instant `t` in the finished
      table: the level of the earliest alert of that phenomenon whose
      interval holds `t`, the default if that level is missing, and the
      default when no such alert exists. */
  function Resolve(alerts: seq<Alert>, id: int, t: int): (v: int)
    ensures Uncovered(alerts, id, t) ==> v == DefaultLevel
    ensures forall i :: IsFirstCover(alerts, id, t, i) ==> v == alerts[i].level.GetOr(DefaultLevel)
    ensures v == DefaultLevel || exists i :: IsFirstCover(alerts, id, t, i) && alerts[i].level == Some(v)
  {
    FirstCoverExists(alerts, id, t);
    Lookup(alerts, id, t).GetOr(DefaultLevel)
  }

  /** The finished cell of phenomenon `id` at instant `t`, computed by a
      direct scan of the alert table that stops at the first alert of that
      phenomenon whose interval holds `t`. */
  method ScanLevel(alerts: seq<Alert>, id: int, t: int) returns (level: int)
    ensures level == Resolve(alerts, id, t)
  {
    level := DefaultLevel;
    var found := false;
    var i := 0;
    while i < |alerts| && !found
      invariant 0 <= i <= |alerts|
      invariant !found ==> Uncovered(alerts[..i], id, t) && level == DefaultLevel
      invariant found ==> 0 < i && IsFirstCover(alerts, id, t, i - 1)
                          && level == alerts[i - 1].level.GetOr(DefaultLevel)
    {
      if alerts[i].phenomenon == id && Covers(alerts[i], t) {
        found := true;
        level := alerts[i].level.GetOr(DefaultLevel);
      }
      i := i + 1;
    }
    if !found {
      assert alerts[..i] == alerts;
    }
  }

  /** When alert `k` is the only alert of its phenomenon, that
      phenomenon's cell is its level exactly on [start, end], both ends
      included, and the default everywhere else. */
  lemma SoleAlert(alerts: seq<Alert>, k: int, t: int)
    requires 0 <= k < |alerts|
    requires forall j :: 0 <= j < |alerts| && j != k ==> alerts[j].phenomenon != alerts[k].phenomenon
    ensures Resolve(alerts, alerts[k].phenomenon, t)
            == if alerts[k].start <= t <= alerts[k].end then alerts[k].level.GetOr(DefaultLevel)
               else DefaultLevel
  {
    if Covers(alerts[k], t) {
      assert IsFirstCover(alerts, alerts[k].phenomenon, t, k);
    }
  }

  /** Taking the short cut for a phenomenon without alerts gives what the
      lookup would have given on its empty partition. */
  lemma ShortCutAgrees(alerts: seq<Alert>, id: int, t: int)
    ensures Lookup(alerts, id, t) == GetVigilance(OfPhenomenon(alerts, id), t)
  {
  }

  lemma {:induction false} OfPhenomenonConcat(a: seq<Alert>, b: seq<Alert>, id: int)
    ensures OfPhenomenon(a + b, id) == OfPhenomenon(a, id) + OfPhenomenon(b, id)
  {
    if |a| > 0 {
      assert (a + b)[1..] == a[1..] + b;
      OfPhenomenonConcat(a[1..], b, id);
    } else {
      assert a + b == b;
    }
  }

  lemma {:induction false} MatchingConcat(a: seq<Alert>, b: seq<Alert>, t: int)
    ensures Matching(a + b, t) == Matching(a, t) + Matching(b, t)
  {
    if |a| > 0 {
      assert (a + b)[1..] == a[1..] + b;
      MatchingConcat(a[1..], b, t);
    } else {
      assert a + b == b;
    }
  }

  /** An alert that belongs to another phenomenon, or whose interval does
      not hold `t` (in particular one with start > end), can be inserted
      anywhere in the alert table without changing the cell. */
  lemma IrrelevantAlertIgnored(a: seq<Alert>, x: Alert, b: seq<Alert>, id: int, t: int)
    requires x.phenomenon != id || !Covers(x, t)
    ensures Lookup(a + [x] + b, id, t) == Lookup(a + b, id, t)
    ensures Resolve(a + [x] + b, id, t) == Resolve(a + b, id, t)
  {
    OfPhenomenonConcat(a + [x], b, id);
    OfPhenomenonConcat(a, [x], id);
    OfPhenomenonConcat(a, b, id);
    var pa, px, pb := OfPhenomenon(a, id), OfPhenomenon([x], id), OfPhenomenon(b, id);
    MatchingConcat(pa + px, pb, t);
    MatchingConcat(pa, px, t);
    MatchingConcat(pa, pb, t);
    assert Matching(px, t) == [];
    ShortCutAgrees(a + [x] + b, id, t);
    ShortCutAgrees(a + b, id, t);
  }
}
