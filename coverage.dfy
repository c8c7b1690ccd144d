/**
 * `analyze_coverage`: a left join of the threat table onto the controls
 * table on the technique identifier, and the share of joined rows whose
 * coverage status is `Yes`, as a percentage.
 */
module Coverage {
  import opened Wrappers
  import opened Extraction

  /** One row of the controls assessment spreadsheet. */
  datatype Control = Control(
    techniqueId: string,     // "Technique ID"
    coverageStatus: string,  // "Coverage Status"
    effectiveness: string,   // "Effectiveness"
    controlType: string)     // "Control Type"

  /** One row of the joined table; `control` is `None` where pandas leaves the control columns empty. */
  datatype Merged = Merged(threat: Observation, control: Option<Control>)

  /** The control rows with the given technique identifier, in table order. */
  function Matches(id: string, controls: seq<Control>): (ms: seq<Control>)
    ensures forall c :: c in ms ==> c in controls && c.techniqueId == id
    ensures ms == [] <==> forall c :: c in controls ==> c.techniqueId != id
  {
    if controls == [] then []
    else (if controls[0].techniqueId == id then [controls[0]] else []) + Matches(id, controls[1..])
  }

  /** The joined rows of one threat row: one per matching control, or one with no control. */
  function JoinRow(t: Observation, controls: seq<Control>): (rows: seq<Merged>)
    ensures |rows| >= 1
    ensures forall m :: m in rows ==> m.threat == t
    ensures forall m :: m in rows ==> (m.control.None? <==> Matches(t.techniqueId, controls) == [])
  {
    var ms := Matches(t.techniqueId, controls);
    if ms == [] then [Merged(t, None)]
    else seq(|ms|, k requires 0 <= k < |ms| => Merged(t, Some(ms[k])))
  }

  /** `pd.merge(threat_df, controls_df, on='Technique ID', how='left')`. */
  function LeftJoin(threats: seq<Observation>, controls: seq<Control>): (r: seq<Merged>)
    ensures |r| >= |threats|
  {
    if threats == [] then [] else JoinRow(threats[0], controls) + LeftJoin(threats[1..], controls)
  }

  /** The threat row of each joined row, in order. */
  function ThreatColumn(merged: seq<Merged>): (ts: seq<Observation>)
    ensures |ts| == |merged|
  {
    if merged == [] then [] else [merged[0].threat] + ThreatColumn(merged[1..])
  }

  /**
   * Every joined row pairs a threat row with a control of the same
   * technique identifier, or with none when no control has that identifier.
   */
  lemma {:induction false} LeftJoinSound(threats: seq<Observation>, controls: seq<Control>)
    ensures forall m :: m in LeftJoin(threats, controls) ==>
      m.threat in threats
      && (m.control.Some? ==> m.control.value in controls && m.control.value.techniqueId == m.threat.techniqueId)
      && (m.control.None? ==> forall c :: c in controls ==> c.techniqueId != m.threat.techniqueId)
  {
    if threats != [] {
      LeftJoinSound(threats[1..], controls);
      var ms := Matches(threats[0].techniqueId, controls);
      forall m | m in JoinRow(threats[0], controls)
        ensures m.threat == threats[0] && (m.control.Some? ==> m.control.value in ms) && (m.control.None? ==> ms == [])
      {
      }
    }
  }

  /** Every threat row and every matching pair of threat and control appears in the join. */
  lemma {:induction false} LeftJoinComplete(threats: seq<Observation>, controls: seq<Control>)
    ensures forall t :: t in threats ==> t in ThreatColumn(LeftJoin(threats, controls))
    ensures forall t, c :: t in threats && c in controls && c.techniqueId == t.techniqueId ==>
      Merged(t, Some(c)) in LeftJoin(threats, controls)
  {
    if threats != [] {
      LeftJoinComplete(threats[1..], controls);
      var t := threats[0];
      var row := JoinRow(t, controls);
      var rest := LeftJoin(threats[1..], controls);
      ThreatColumnAppend(row, rest);
      assert ThreatColumn(row)[0] == t;
      forall c | c in controls && c.techniqueId == t.techniqueId
        ensures Merged(t, Some(c)) in row
      {
        MatchesComplete(t.techniqueId, controls, c);
        var ms := Matches(t.techniqueId, controls);
        var k :| 0 <= k < |ms| && ms[k] == c;
        assert row[k] == Merged(t, Some(c));
      }
    }
  }

  lemma {:induction false} MatchesComplete(id: string, controls: seq<Control>, c: Control)
    requires c in controls && c.techniqueId == id
    ensures c in Matches(id, controls)
  {
    if controls[0] != c {
      MatchesComplete(id, controls[1..], c);
    }
  }

  lemma {:induction false} ThreatColumnAppend(a: seq<Merged>, b: seq<Merged>)
    ensures ThreatColumn(a + b) == ThreatColumn(a) + ThreatColumn(b)
  {
    if a == [] {
      assert a + b == b;
    } else {
      assert (a + b)[1..] == a[1..] + b;
      ThreatColumnAppend(a[1..], b);
    }
  }

  /** The joined rows pairing a threat row with each of the given controls in turn. */
  function Pair(t: Observation, ms: seq<Control>): seq<Merged>
  {
    if ms == [] then [] else [Merged(t, Some(ms[0]))] + Pair(t, ms[1..])
  }

  lemma {:induction false} PairIsRow(t: Observation, ms: seq<Control>)
    ensures Pair(t, ms) == seq(|ms|, k requires 0 <= k < |ms| => Merged(t, Some(ms[k])))
  {
    if ms != [] {
      PairIsRow(t, ms[1..]);
    }
  }

  lemma {:induction false} PairMultiplicity(t: Observation, ms: seq<Control>, c: Control)
    ensures multiset(Pair(t, ms))[Merged(t, Some(c))] == multiset(ms)[c]
  {
    if ms != [] {
      PairMultiplicity(t, ms[1..], c);
      assert ms == [ms[0]] + ms[1..];
    }
  }

  /** A control row is matched as often as it occurs in the controls table when its identifier is the one sought, and never otherwise. */
  lemma {:induction false} MatchesMultiplicity(id: string, controls: seq<Control>, c: Control)
    ensures multiset(Matches(id, controls))[c] == if c.techniqueId == id then multiset(controls)[c] else 0
  {
    if controls != [] {
      MatchesMultiplicity(id, controls[1..], c);
      assert controls == [controls[0]] + controls[1..];
    }
  }

  /** A threat row is paired with a control of its identifier as often as that control occurs in the controls table. */
  lemma JoinRowPairs(t: Observation, controls: seq<Control>, c: Control)
    requires c.techniqueId == t.techniqueId
    ensures multiset(JoinRow(t, controls))[Merged(t, Some(c))] == multiset(controls)[c]
  {
    var ms := Matches(t.techniqueId, controls);
    MatchesMultiplicity(t.techniqueId, controls, c);
    if ms != [] {
      PairIsRow(t, ms);
      PairMultiplicity(t, ms, c);
    }
  }

  /**
   * Across the whole join, a threat row and a control of its identifier are
   * paired once for each occurrence of the one times each of the other: a
   * cross product per identifier, as pandas produces for duplicate keys.
   */
  lemma {:induction false} LeftJoinMultiplicity(threats: seq<Observation>, controls: seq<Control>, t: Observation, c: Control)
    requires c.techniqueId == t.techniqueId
    ensures multiset(LeftJoin(threats, controls))[Merged(t, Some(c))] == multiset(threats)[t] * multiset(controls)[c]
  {
    if threats != [] {
      var row := JoinRow(threats[0], controls);
      var rest := LeftJoin(threats[1..], controls);
      var x := Merged(t, Some(c));
      LeftJoinMultiplicity(threats[1..], controls, t, c);
      LeftJoinCountStep(threats, controls, x);
      HeadCount(threats, t);
      if threats[0] == t {
        JoinRowPairs(t, controls, c);
      } else {
        JoinRowOthers(threats[0], controls, x);
      }
      CrossCount(multiset(LeftJoin(threats, controls))[x], multiset(row)[x], multiset(rest)[x],
        multiset(threats)[t], multiset(threats[1..])[t], multiset(controls)[c]);
    }
  }

  lemma LeftJoinCountStep(threats: seq<Observation>, controls: seq<Control>, x: Merged)
    requires threats != []
    ensures multiset(LeftJoin(threats, controls))[x]
      == multiset(JoinRow(threats[0], controls))[x] + multiset(LeftJoin(threats[1..], controls))[x]
  {
    assert LeftJoin(threats, controls) == JoinRow(threats[0], controls) + LeftJoin(threats[1..], controls);
  }

  lemma HeadCount<T>(s: seq<T>, y: T)
    requires s != []
    ensures multiset(s)[y] == (if s[0] == y then 1 else 0) + multiset(s[1..])[y]
  {
    assert s == [s[0]] + s[1..];
  }

  /** The counting step of `LeftJoinMultiplicity`, apart from the sequences it counts in. */
  lemma CrossCount(total: nat, inRow: nat, inRest: nat, now: nat, before: nat, m: nat)
    requires total == inRow + inRest && inRest == before * m
    requires (now == before + 1 && inRow == m) || (now == before && inRow == 0)
    ensures total == now * m
  {
    if now == before + 1 {
      assert now * m == before * m + m;
    }
  }

  /** The joined rows of one threat row all carry that threat row. */
  lemma JoinRowOthers(t: Observation, controls: seq<Control>, x: Merged)
    requires x.threat != t
    ensures multiset(JoinRow(t, controls))[x] == 0
  {
    assert forall m :: m in JoinRow(t, controls) ==> m.threat == t;
  }

  /** The expected number of joined rows: per threat row, its matches, or one if it has none. */
  function JoinSize(threats: seq<Observation>, controls: seq<Control>): nat
  {
    if threats == [] then 0
    else
      var n := |Matches(threats[0].techniqueId, controls)|;
      (if n == 0 then 1 else n) + JoinSize(threats[1..], controls)
  }

  lemma {:induction false} LeftJoinSize(threats: seq<Observation>, controls: seq<Control>)
    ensures |LeftJoin(threats, controls)| == JoinSize(threats, controls)
  {
    if threats != [] {
      LeftJoinSize(threats[1..], controls);
    }
  }

  /** The join keeps the order of the threat table. */
  lemma {:induction false} LeftJoinAppend(a: seq<Observation>, b: seq<Observation>, controls: seq<Control>)
    ensures LeftJoin(a + b, controls) == LeftJoin(a, controls) + LeftJoin(b, controls)
  {
    if a == [] {
      assert a + b == b;
    } else {
      assert (a + b)[1..] == a[1..] + b;
      LeftJoinAppend(a[1..], b, controls);
    }
  }

  /** No two control rows share a technique identifier. */
  predicate UniqueIds(controls: seq<Control>)
  {
    forall i, j :: 0 <= i < j < |controls| ==> controls[i].techniqueId != controls[j].techniqueId
  }

  lemma {:induction false} MatchesAtMostOne(id: string, controls: seq<Control>)
    requires UniqueIds(controls)
    ensures |Matches(id, controls)| <= 1
  {
    if controls != [] {
      var tail := controls[1..];
      assert UniqueIds(tail) by {
        forall i, j | 0 <= i < j < |tail| ensures tail[i].techniqueId != tail[j].techniqueId {
          assert tail[i] == controls[i + 1] && tail[j] == controls[j + 1];
        }
      }
      MatchesAtMostOne(id, tail);
      if controls[0].techniqueId == id {
        forall c | c in tail ensures c.techniqueId != id {
          var j :| 0 <= j < |tail| && tail[j] == c;
          assert controls[j + 1] == c;
        }
      }
    }
  }

  /**
   * With unique control identifiers the join is many-to-one: exactly one
   * joined row per threat row, in the threat table's order.
   */
  lemma {:induction false} LeftJoinUnique(threats: seq<Observation>, controls: seq<Control>)
    requires UniqueIds(controls)
    ensures |LeftJoin(threats, controls)| == |threats|
    ensures ThreatColumn(LeftJoin(threats, controls)) == threats
  {
    if threats != [] {
      LeftJoinUnique(threats[1..], controls);
      MatchesAtMostOne(threats[0].techniqueId, controls);
      var row := JoinRow(threats[0], controls);
      assert |row| == 1;
      ThreatColumnAppend(row, LeftJoin(threats[1..], controls));
      assert [threats[0]] + threats[1..] == threats;
    }
  }

  /** Two control rows answering the same threat row make the join longer than the threat table. */
  lemma {:induction false} LeftJoinDuplicates(threats: seq<Observation>, controls: seq<Control>, k: nat, i: nat, j: nat)
    requires k < |threats| && i < j < |controls|
    requires controls[i].techniqueId == threats[k].techniqueId == controls[j].techniqueId
    ensures |LeftJoin(threats, controls)| > |threats|
  {
    if k == 0 {
      MatchesTwo(threats[0].techniqueId, controls, i, j);
    } else {
      LeftJoinDuplicates(threats[1..], controls, k - 1, i, j);
    }
  }

  lemma {:induction false} MatchesTwo(id: string, controls: seq<Control>, i: nat, j: nat)
    requires i < j < |controls| && controls[i].techniqueId == id == controls[j].techniqueId
    ensures |Matches(id, controls)| >= 2
  {
    if i == 0 {
      MatchesComplete(id, controls[1..], controls[j]);
    } else {
      MatchesTwo(id, controls[1..], i - 1, j - 1);
    }
  }

  /** The literal `analyze_coverage` compares the status column with. */
  const CoveredStatus := "Yes"

  /** A joined row counts as covered when its control columns are present and the status is `Yes`. */
  predicate Covered(m: Merged)
  {
    m.control.Some? && m.control.value.coverageStatus == CoveredStatus
  }

  function CoveredCount(merged: seq<Merged>): (n: nat)
    ensures n <= |merged|
    ensures n == 0 <==> forall m :: m in merged ==> !Covered(m)
    ensures n == |merged| <==> forall m :: m in merged ==> Covered(m)
  {
    if merged == [] then 0 else (if Covered(merged[0]) then 1 else 0) + CoveredCount(merged[1..])
  }

  /**
   * `(merged_df['Coverage Status'] == 'Yes').mean() * 100` as an exact
   * rational; `None` for an empty join, where the mean is NaN.
   */
  function CoveragePercent(merged: seq<Merged>): (r: Option<real>)
    ensures r.None? <==> merged == []
    ensures r.Some? ==> 0.0 <= r.value <= 100.0
    ensures r.Some? ==> (r.value == 0.0 <==> forall m :: m in merged ==> !Covered(m))
    ensures r.Some? ==> (r.value == 100.0 <==> forall m :: m in merged ==> Covered(m))
  {
    if merged == [] then None
    else
      var yes, total := CoveredCount(merged) as real, |merged| as real;
      PercentBounds(yes, total);
      Some(100.0 * yes / total)
  }

  /** A share of `yes` out of `total`, as a percentage, lies in [0, 100] and hits the ends only at none and all. */
  lemma PercentBounds(yes: real, total: real)
    requires 0.0 <= yes <= total && total > 0.0
    ensures 0.0 <= 100.0 * yes / total <= 100.0
    ensures 100.0 * yes / total == 0.0 <==> yes == 0.0
    ensures 100.0 * yes / total == 100.0 <==> yes == total
  {
    var pct := 100.0 * yes / total;
    assert pct * total == 100.0 * yes;
  }

  /** `analyze_coverage`: the joined table and its coverage percentage. */
  function AnalyzeCoverage(threats: seq<Observation>, controls: seq<Control>): (r: (seq<Merged>, Option<real>))
    ensures r.1.None? <==> threats == []
    ensures r.1.Some? ==> 0.0 <= r.1.value <= 100.0
  {
    var merged := LeftJoin(threats, controls);
    (merged, CoveragePercent(merged))
  }

  /**
   * Over a non-empty threat table the percentage is defined and lies in
   * [0, 100] (this repeats `AnalyzeCoverage`'s contract); it is 0 when no
   * control row has status `Yes`.
   */
  lemma CoverageBounds(threats: seq<Observation>, controls: seq<Control>)
    requires threats != []
    ensures var p := AnalyzeCoverage(threats, controls).1;
      p.Some? && 0.0 <= p.value <= 100.0
    ensures (forall c :: c in controls ==> c.coverageStatus != CoveredStatus) ==>
      AnalyzeCoverage(threats, controls).1 == Some(0.0)
  {
    LeftJoinSound(threats, controls);
  }

  /** The joined rows of the worked example below. */
  lemma JoinExample(a: Observation, b: Observation, c: Observation, x: Control, y: Control)
    requires a.techniqueId == "T1059" && b.techniqueId == "T1078" && c.techniqueId == "T1059"
    requires x.techniqueId == "T1059" && y.techniqueId == "T1078"
    ensures LeftJoin([a, b, c], [x, y]) == [Merged(a, Some(x)), Merged(b, Some(y)), Merged(c, Some(x))]
  {
    assert [x, y][1..] == [y] && [y][1..] == [];
    assert Matches("T1059", [x, y]) == [x];
    assert Matches("T1078", [x, y]) == [y];
    assert JoinRow(a, [x, y]) == [Merged(a, Some(x))];
    assert JoinRow(b, [x, y]) == [Merged(b, Some(y))];
    assert JoinRow(c, [x, y]) == [Merged(c, Some(x))];
    assert [a, b, c][1..] == [b, c] && [b, c][1..] == [c] && [c][1..] == [];
    assert LeftJoin([c], [x, y]) == [Merged(c, Some(x))];
    assert LeftJoin([b, c], [x, y]) == [Merged(b, Some(y)), Merged(c, Some(x))];
  }

  /**
   * Threat rows for T1059, T1078 and T1059 against controls T1059 `Yes` and
   * T1078 `No`: three joined rows, two of them covered, i.e. 66.67 percent.
   */
  lemma CoverageExample(a: Observation, b: Observation, c: Observation, x: Control, y: Control)
    requires a.techniqueId == "T1059" && b.techniqueId == "T1078" && c.techniqueId == "T1059"
    requires x.techniqueId == "T1059" && x.coverageStatus == "Yes"
    requires y.techniqueId == "T1078" && y.coverageStatus == "No"
    ensures var (merged, p) := AnalyzeCoverage([a, b, c], [x, y]);
      |merged| == 3 && p == Some(200.0 / 3.0)
  {
    JoinExample(a, b, c, x, y);
    var merged := [Merged(a, Some(x)), Merged(b, Some(y)), Merged(c, Some(x))];
    assert !Covered(merged[1]);
    assert merged[1..] == [Merged(b, Some(y)), Merged(c, Some(x))];
    assert merged[1..][1..] == [Merged(c, Some(x))];
    assert merged[1..][1..][1..] == [];
    assert CoveredCount(merged) == 2;
    assert 100.0 * 2.0 / 3.0 == 200.0 / 3.0;
  }
}
