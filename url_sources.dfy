/**
 * The two sources of document locations: a URL list file and interactive
 * entry on standard input. The file is given as the lines that iterating
 * over it yields (each still carrying its line terminator); standard input
 * as the lines `input()` returns in turn (without terminators).
 */
module UrlSources {
  import opened Wrappers
  import opened PyStrings

  /** A line is blank when `strip()` leaves nothing of it. */
  predicate Blank(line: string)
  {
    Strip(line) == []
  }

  /** `parse_urls_from_file`: the stripped form of every non-blank line, in file order. */
  function UrlsFromFile(lines: seq<string>): (urls: seq<string>)
    ensures |urls| <= |lines|
    ensures forall u :: u in urls ==> u != []
  {
    if lines == [] then []
    else
      (if Blank(lines[0]) then [] else [Strip(lines[0])]) + UrlsFromFile(lines[1..])
  }

  /** Every URL read from a file is already stripped: `strip()` leaves it unchanged. */
  lemma {:induction false} UrlsFromFileTrimmed(lines: seq<string>)
    ensures forall u :: u in UrlsFromFile(lines) ==> Strip(u) == u
  {
    if lines != [] {
      UrlsFromFileTrimmed(lines[1..]);
      StripIdempotent(lines[0]);
    }
  }

  /** Reading two consecutive stretches of a file gives their URLs one after the other. */
  lemma {:induction false} UrlsFromFileAppend(a: seq<string>, b: seq<string>)
    ensures UrlsFromFile(a + b) == UrlsFromFile(a) + UrlsFromFile(b)
  {
    if a == [] {
      assert a + b == b;
    } else {
      assert (a + b)[1..] == a[1..] + b;
      UrlsFromFileAppend(a[1..], b);
    }
  }

  /** A file yields no URL exactly when every one of its lines is blank. */
  lemma {:induction false} UrlsFromFileEmpty(lines: seq<string>)
    ensures UrlsFromFile(lines) == [] <==> forall k :: 0 <= k < |lines| ==> Blank(lines[k])
  {
    if lines != [] {
      UrlsFromFileEmpty(lines[1..]);
      if UrlsFromFile(lines) == [] {
        assert Blank(lines[0]);
        forall k | 0 < k < |lines| ensures Blank(lines[k]) {
          assert lines[k] == lines[1..][k - 1];
        }
      } else if Blank(lines[0]) {
        var k :| 0 <= k < |lines[1..]| && !Blank(lines[1..][k]);
        assert lines[k + 1] == lines[1..][k];
      }
    }
  }

  /** Every URL read from a file is the stripped form of one of its non-blank lines. */
  lemma {:induction false} UrlsFromFileSource(lines: seq<string>, k: nat)
    requires k < |UrlsFromFile(lines)|
    ensures exists i :: 0 <= i < |lines| && !Blank(lines[i]) && UrlsFromFile(lines)[k] == Strip(lines[i])
  {
    if Blank(lines[0]) {
      UrlsFromFileSource(lines[1..], k);
      var i :| 0 <= i < |lines[1..]| && !Blank(lines[1..][i]) && UrlsFromFile(lines[1..])[k] == Strip(lines[1..][i]);
      assert lines[i + 1] == lines[1..][i];
    } else if k == 0 {
      assert UrlsFromFile(lines)[0] == Strip(lines[0]);
    } else {
      UrlsFromFileSource(lines[1..], k - 1);
      var i :| 0 <= i < |lines[1..]| && !Blank(lines[1..][i]) && UrlsFromFile(lines[1..])[k - 1] == Strip(lines[1..][i]);
      assert lines[i + 1] == lines[1..][i];
    }
  }

  /** Whether an entered line ends interactive entry: its lower-case form is `done`. */
  predicate IsSentinel(line: string)
  {
    Lower(line) == "done"
  }

  /** The sentinel is `done` in any mix of cases, and nothing else. */
  lemma SentinelSpelling(line: string)
    ensures IsSentinel(line) <==>
      |line| == 4 && line[0] in "dD" && line[1] in "oO" && line[2] in "nN" && line[3] in "eE"
  {
    if |line| == 4 {
      assert Lower(line) == [LowerChar(line[0]), LowerChar(line[1]), LowerChar(line[2]), LowerChar(line[3])];
    }
  }

  /**
   * `parse_urls_from_input` as a value: the lines before the first sentinel,
   * or `None` when standard input ends first (`input()` then raises
   * `EOFError`, which nothing catches).
   */
  function InputUrls(stdin: seq<string>): (r: Option<seq<string>>)
    ensures r.Some? ==> |r.value| < |stdin| && r.value == stdin[..|r.value|] && IsSentinel(stdin[|r.value|])
    ensures r.None? ==> forall i :: 0 <= i < |stdin| ==> !IsSentinel(stdin[i])
  {
    if stdin == [] then None
    else if IsSentinel(stdin[0]) then Some([])
    else
      match InputUrls(stdin[1..])
      case None => None
      case Some(rest) => Some([stdin[0]] + rest)
  }

  /** With a sentinel at `k` and none before it, entry yields the `k` lines before it. */
  lemma {:induction false} InputUrlsAtSentinel(stdin: seq<string>, k: nat)
    requires k < |stdin| && IsSentinel(stdin[k])
    requires forall i :: 0 <= i < k ==> !IsSentinel(stdin[i])
    ensures InputUrls(stdin) == Some(stdin[..k])
  {
    if k > 0 {
      InputUrlsAtSentinel(stdin[1..], k - 1);
      assert [stdin[0]] + stdin[1..][..k - 1] == stdin[..k];
    }
  }

  /** Without any sentinel, entry fails at end of input. */
  lemma {:induction false} InputUrlsNoSentinel(stdin: seq<string>)
    requires forall i :: 0 <= i < |stdin| ==> !IsSentinel(stdin[i])
    ensures InputUrls(stdin) == None
  {
    if stdin != [] {
      InputUrlsNoSentinel(stdin[1..]);
    }
  }

  /**
   * The `while True` loop of `parse_urls_from_input`: reads lines until one
   * is the sentinel, keeping the lines before it unchanged.
   */
  method ReadUrlsFromInput(stdin: seq<string>) returns (r: Option<seq<string>>)
    ensures r.None? <==> forall i :: 0 <= i < |stdin| ==> !IsSentinel(stdin[i])
    ensures r.Some? ==>
      |r.value| < |stdin| && r.value == stdin[..|r.value|] && IsSentinel(stdin[|r.value|])
      && forall i :: 0 <= i < |r.value| ==> !IsSentinel(stdin[i])
    ensures r == InputUrls(stdin)
  {
    var urls: seq<string> := [];
    var next := 0;
    while true
      invariant 0 <= next <= |stdin|
      invariant urls == stdin[..next]
      invariant forall i :: 0 <= i < next ==> !IsSentinel(stdin[i])
      decreases |stdin| - next
    {
      if next == |stdin| {
        InputUrlsNoSentinel(stdin);
        return None;
      }
      var url := stdin[next];
      if IsSentinel(url) {
        InputUrlsAtSentinel(stdin, next);
        return Some(urls);
      }
      urls := urls + [url];
      next := next + 1;
    }
  }
}
