/**
 * The record parser of `process_pdf_urls`: every document location is sent
 * to the text-analysis service, and each line of its answer that splits on
 * tabs into exactly seven fields becomes one observation record.
 */
module Extraction {
  import opened Wrappers
  import opened PyStrings

  /** One row of the threat table; the fields are the seven columns in order. */
  datatype Observation = Observation(
    activity: string,     // "Observed Activity"
    technique: string,    // "MITRE ATT&CK Technique"
    techniqueId: string,  // "Technique ID"
    tactic: string,       // "Tactic"
    severity: string,     // "Severity"
    detected: string,     // "Detected"
    threatGroup: string)  // "Threat Group"

  /** The number of fields an answer line must split into. */
  const FieldCount := 7

  /** The service's answer to one request: its text, or the exception it raised. */
  datatype Reply = Answer(content: string) | Raised

  /** A record's fields in column order. */
  function Fields(o: Observation): (fs: seq<string>)
    ensures |fs| == FieldCount
  {
    [o.activity, o.technique, o.techniqueId, o.tactic, o.severity, o.detected, o.threatGroup]
  }

  /** A record written back as one tab-separated line. */
  function Format(o: Observation): string
  {
    Join(Fields(o), '\t')
  }

  /** One answer line: a record when it splits on tabs into exactly seven fields. */
  function ParseLine(line: string): (r: Option<Observation>)
    ensures r.Some? <==> WellFormed(line)
    ensures r.Some? ==> Fields(r.value) == Split(line, '\t')
  {
    var parts := Split(line, '\t');
    if |parts| == FieldCount then
      Some(Observation(parts[0], parts[1], parts[2], parts[3], parts[4], parts[5], parts[6]))
    else
      None
  }

  /** A line is accepted exactly when it holds six tab characters (empty fields allowed). */
  predicate WellFormed(line: string)
  {
    Count(line, '\t') == FieldCount - 1
  }

  /**
   * Writing an accepted line's record back gives the line exactly. The first
   * two clauses repeat `ParseLine`'s own contract, so that the whole round
   * trip reads in one place.
   */
  lemma ParseLineAccepts(line: string)
    ensures ParseLine(line).Some? <==> WellFormed(line)
    ensures ParseLine(line).Some? ==>
      Fields(ParseLine(line).value) == Split(line, '\t') && Format(ParseLine(line).value) == line
  {
    var parts := Split(line, '\t');
    if |parts| == FieldCount {
      assert Fields(ParseLine(line).value) == parts;
      JoinSplit(line, '\t');
    }
  }

  /** A record whose fields hold no tab is read back from its written line. */
  lemma FormatParses(o: Observation)
    requires forall i :: 0 <= i < FieldCount ==> '\t' !in Fields(o)[i]
    ensures ParseLine(Format(o)) == Some(o)
  {
    SplitJoin(Fields(o), '\t');
  }

  /** The records of a sequence of answer lines, in line order. */
  function ParseLines(lines: seq<string>): (r: seq<Observation>)
    ensures |r| <= |lines|
    ensures forall o :: o in r ==> exists line :: line in lines && ParseLine(line) == Some(o)
  {
    if lines == [] then []
    else
      (match ParseLine(lines[0]) case Some(o) => [o] case None => []) + ParseLines(lines[1..])
  }

  /** The number of well-formed lines. */
  function CountWellFormed(lines: seq<string>): nat
  {
    if lines == [] then 0 else (if WellFormed(lines[0]) then 1 else 0) + CountWellFormed(lines[1..])
  }

  /** There is one record per well-formed line and none for any other line. */
  lemma {:induction false} ParseLinesCount(lines: seq<string>)
    ensures |ParseLines(lines)| == CountWellFormed(lines)
  {
    if lines != [] {
      ParseLineAccepts(lines[0]);
      ParseLinesCount(lines[1..]);
    }
  }

  /** Records keep the order of their lines: the records of `a + b` are those of `a`, then those of `b`. */
  lemma {:induction false} ParseLinesAppend(a: seq<string>, b: seq<string>)
    ensures ParseLines(a + b) == ParseLines(a) + ParseLines(b)
  {
    if a == [] {
      assert a + b == b;
    } else {
      assert (a + b)[1..] == a[1..] + b;
      ParseLinesAppend(a[1..], b);
    }
  }

  /** Every record written back is one of the answer lines, and a well-formed one. */
  lemma {:induction false} ParseLinesFromLines(lines: seq<string>, k: nat)
    requires k < |ParseLines(lines)|
    ensures Format(ParseLines(lines)[k]) in lines && WellFormed(Format(ParseLines(lines)[k]))
  {
    ParseLineAccepts(lines[0]);
    var head := match ParseLine(lines[0]) case Some(o) => [o] case None => [];
    if k < |head| {
      assert ParseLines(lines)[k] == ParseLine(lines[0]).value;
    } else {
      ParseLinesFromLines(lines[1..], k - |head|);
      assert ParseLines(lines)[k] == ParseLines(lines[1..])[k - |head|];
    }
  }

  /** The records one reply contributes: those of every answer line, or none if the call raised. */
  function ReplyRecords(reply: Reply): (r: seq<Observation>)
    ensures reply.Raised? ==> r == []
    ensures forall o :: o in r ==> reply.Answer? && exists line :: line in Split(reply.content, '\n') && ParseLine(line) == Some(o)
  {
    match reply
    case Answer(content) => ParseLines(Split(content, '\n'))
    case Raised => []
  }

  /** The outputs of `f` for each element of `xs` in turn, concatenated. */
  function Flatten<S, T>(xs: seq<S>, f: S -> seq<T>): (r: seq<T>)
    ensures forall y :: y in r ==> exists x :: x in xs && y in f(x)
  {
    if xs == [] then [] else Flatten(xs[..|xs| - 1], f) + f(xs[|xs| - 1])
  }

  lemma {:induction false} FlattenAppend<S, T>(u: seq<S>, v: seq<S>, f: S -> seq<T>)
    ensures Flatten(u + v, f) == Flatten(u, f) + Flatten(v, f)
  {
    if v == [] {
      assert u + v == u;
    } else {
      var w := u + v;
      var v' := v[..|v| - 1];
      assert w[..|w| - 1] == u + v';
      assert w[|w| - 1] == v[|v| - 1];
      FlattenAppend(u, v', f);
    }
  }

  /** The threat table for a batch of locations: their records, location after location. */
  function Extract(urls: seq<string>, ask: string -> Reply): (r: seq<Observation>)
    ensures forall o :: o in r ==> exists url :: url in urls && o in ReplyRecords(ask(url))
  {
    Flatten(urls, url => ReplyRecords(ask(url)))
  }

  /** Locations are processed in order: a batch's table is that of its first part, then its second. */
  lemma ExtractAppend(u: seq<string>, v: seq<string>, ask: string -> Reply)
    ensures Extract(u + v, ask) == Extract(u, ask) + Extract(v, ask)
  {
    FlattenAppend(u, v, url => ReplyRecords(ask(url)));
  }

  /** A location whose call raises adds nothing, and the locations after it are still processed. */
  lemma FailedUrlAddsNothing(u: seq<string>, url: string, v: seq<string>, ask: string -> Reply)
    requires ask(url) == Raised
    ensures Extract(u + [url] + v, ask) == Extract(u, ask) + Extract(v, ask)
  {
    ExtractAppend(u + [url], v, ask);
    ExtractAppend(u, [url], ask);
    ExtractOne(url, ask);
  }

  lemma ExtractOne(url: string, ask: string -> Reply)
    ensures Extract([url], ask) == ReplyRecords(ask(url))
  {
    var f := u => ReplyRecords(ask(u));
    assert [url][..0] == [];
    assert Flatten([url], f) == Flatten([], f) + f(url);
  }

  /** The number of well-formed lines over all answers that were received. */
  function AnsweredWellFormed(urls: seq<string>, ask: string -> Reply): nat
  {
    if urls == [] then 0
    else
      AnsweredWellFormed(urls[..|urls| - 1], ask)
      + match ask(urls[|urls| - 1])
        case Answer(content) => CountWellFormed(Split(content, '\n'))
        case Raised => 0
  }

  /** The threat table holds one row per well-formed line of every answer received, and no other row. */
  lemma {:induction false} ExtractCount(urls: seq<string>, ask: string -> Reply)
    ensures |Extract(urls, ask)| == AnsweredWellFormed(urls, ask)
  {
    if urls != [] {
      ExtractCount(urls[..|urls| - 1], ask);
      var reply := ask(urls[|urls| - 1]);
      if reply.Answer? {
        ParseLinesCount(Split(reply.content, '\n'));
      }
    }
  }

  /** One more line of an answer adds that line's record, if it has one. */
  lemma ParseLinesSnoc(lines: seq<string>, j: nat, added: seq<Observation>)
    requires j < |lines|
    requires var parts := Split(lines[j], '\t');
      added == if |parts| == FieldCount
               then [Observation(parts[0], parts[1], parts[2], parts[3], parts[4], parts[5], parts[6])]
               else []
    ensures ParseLines(lines[..j + 1]) == ParseLines(lines[..j]) + added
  {
    assert ParseLines([lines[j]]) == added;
    assert lines[..j + 1] == lines[..j] + [lines[j]];
    ParseLinesAppend(lines[..j], [lines[j]]);
  }

  /** One more location adds the records of its reply. */
  lemma ExtractSnoc(urls: seq<string>, i: nat, ask: string -> Reply)
    requires i < |urls|
    ensures Extract(urls[..i + 1], ask) == Extract(urls[..i], ask) + ReplyRecords(ask(urls[i]))
  {
    assert urls[..i + 1][..i] == urls[..i];
  }

  /**
   * The loops of `process_pdf_urls`: for each location in turn, ask the
   * service; if it answered, append a record for every answer line that
   * splits into seven fields; if it raised, go on with the next location.
   */
  method ProcessUrls(urls: seq<string>, ask: string -> Reply) returns (data: seq<Observation>)
    ensures data == Extract(urls, ask)
  {
    data := [];
    for i := 0 to |urls|
      invariant data == Extract(urls[..i], ask)
    {
      var reply := ask(urls[i]);
      ghost var before := data;
      if reply.Answer? {
        var lines := Split(reply.content, '\n');
        for j := 0 to |lines|
          invariant data == before + ParseLines(lines[..j])
        {
          var parts := Split(lines[j], '\t');
          var added: seq<Observation> := [];
          if |parts| == FieldCount {
            added := [Observation(parts[0], parts[1], parts[2], parts[3], parts[4], parts[5], parts[6])];
            data := data + added;
          }
          ParseLinesSnoc(lines, j, added);
        }
        assert lines[..|lines|] == lines;
      }
      assert data == before + ReplyRecords(reply);
      ExtractSnoc(urls, i, ask);
    }
    assert urls[..|urls|] == urls;
  }

  /**
   * An answer made of one record's line and a malformed line yields exactly
   * that one record, its fields taken by position.
   */
  lemma {:induction false} OneWellFormedLine(o: Observation, bad: string)
    requires forall i :: 0 <= i < FieldCount ==> '\t' !in Fields(o)[i] && '\n' !in Fields(o)[i]
    requires '\n' !in bad && !WellFormed(bad)
    ensures ReplyRecords(Answer(Format(o) + "\n" + bad)) == [o]
  {
    var good := Format(o);
    JoinAvoids(Fields(o), '\t', '\n');
    SplitJoin([good, bad], '\n');
    assert Join([good, bad], '\n') == good + "\n" + bad;
    FormatParses(o);
    ParseLineAccepts(bad);
    assert ParseLines([good, bad]) == [o] + ParseLines([bad]);
    assert [bad][1..] == [];
  }

  /**
   * The seven-field line `Activity, TechName, T1059, Execution, High, Yes,
   * APT29` followed by a five-field line gives one row with those values.
   */
  lemma OneWellFormedLineExample()
    ensures var o := Observation("Activity", "TechName", "T1059", "Execution", "High", "Yes", "APT29");
      ReplyRecords(Answer(Format(o) + "\n" + Join(["A", "B", "C", "D", "E"], '\t'))) == [o]
  {
    var o := Observation("Activity", "TechName", "T1059", "Execution", "High", "Yes", "APT29");
    var bad := Join(["A", "B", "C", "D", "E"], '\t');
    ExampleFieldsClean(o);
    ExampleLineMalformed(bad);
    OneWellFormedLine(o, bad);
  }

  lemma ExampleFieldsClean(o: Observation)
    requires o == Observation("Activity", "TechName", "T1059", "Execution", "High", "Yes", "APT29")
    ensures forall i :: 0 <= i < FieldCount ==> '\t' !in Fields(o)[i] && '\n' !in Fields(o)[i]
  {
    assert Fields(o) == ["Activity", "TechName", "T1059", "Execution", "High", "Yes", "APT29"];
  }

  lemma ExampleLineMalformed(bad: string)
    requires bad == Join(["A", "B", "C", "D", "E"], '\t')
    ensures '\n' !in bad && !WellFormed(bad)
  {
    var parts := ["A", "B", "C", "D", "E"];
    JoinAvoids(parts, '\t', '\n');
    SplitJoin(parts, '\t');
    assert |Split(bad, '\t')| == 5;
  }
}
