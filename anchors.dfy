/**
  Anchor-text extraction (Indexer.py:124-138): the raw content is split on
  whitespace, and every piece that contains "href" yields either one anchor
  string, sliced heuristically between the first '=' and the next '>' or
  quote, or, when the piece has no '=' (the ValueError of `line.index("=")`),
  one increment of the missed counter.
 */
module Anchors {
  import opened Text
  import opened Wrappers

  /** `content.split()`. */
  function SplitWhitespace(content: string): seq<string>
  {
    Fields(content, IsSpace)
  }

  /** Indexer.py:129-136 for one piece: None is the ValueError raised by
      `line.index("=")`; otherwise the slice `line[first:second]`. */
  function AnchorOf(line: string): (r: Option<string>)
    ensures r.None? <==> '=' !in line
  {
    var eq := IndexOf(line, '=');
    if eq == |line| then None
    else Some(PySlice(line, eq + 2, AnchorStop(line, eq + 2)))
  }

  /** `second` of Indexer.py:130-135, a Python slice bound that may be negative. */
  function AnchorStop(line: string, first: int): int
  {
    if '>' in line then IndexOf(line, '>') - 1
    else if '"' in PySlice(line, first, |line|) then -2
    else |line|
  }

  /** Where the anchor of a piece lies and when it is empty. It starts two
      characters after the first '=' (past the opening quote). With a '>'
      after the first character it stops one character before that '>'; with
      a '>' as first character the bound -1 makes it stop one character
      before the end. Without '>' it stops two characters before the end if a
      quote follows the start, and runs to the end otherwise. */
  lemma AnchorPosition(line: string)
    requires '=' in line
    ensures var eq := IndexOf(line, '=');
            var a := AnchorOf(line).value;
            && (a != [] ==> OccursAt(line, a, eq + 2))
            && ('>' in line && IndexOf(line, '>') >= 1 ==>
                  (a == [] <==> eq + 2 >= IndexOf(line, '>') - 1) &&
                  (a != [] ==> eq + 2 + |a| == IndexOf(line, '>') - 1))
            && ('>' in line && IndexOf(line, '>') == 0 ==>
                  (a == [] <==> eq + 2 >= |line| - 1) &&
                  (a != [] ==> eq + 2 + |a| == |line| - 1))
            && ('>' !in line && eq + 2 <= |line| && '"' in line[eq + 2..] ==>
                  (a == [] <==> eq + 2 >= |line| - 2) &&
                  (a != [] ==> eq + 2 + |a| == |line| - 2))
            && ('>' !in line && eq + 2 <= |line| && '"' !in line[eq + 2..] ==> a == line[eq + 2..])
            && ('>' !in line && eq + 2 >= |line| ==> a == [])
  {
    var eq := IndexOf(line, '=');
    var first := eq + 2;
    if first <= |line| {
      assert PySlice(line, first, |line|) == line[first..];
    }
  }

  /** The loop of Indexer.py:126-138 over the pieces seen so far:
      (anchor_words, anchor_words_missed). */
  function AnchorScan(lines: seq<string>): (seq<string>, nat)
    decreases |lines|
  {
    if lines == [] then ([], 0)
    else ScanPiece(AnchorScan(lines[..|lines| - 1]), lines[|lines| - 1])
  }

  /** One iteration of the loop: a piece without "href" is skipped. */
  function ScanPiece(acc: (seq<string>, nat), line: string): (seq<string>, nat)
  {
    if !Contains(line, "href") then acc
    else match AnchorOf(line)
      case Some(a) => (acc.0 + [a], acc.1)
      case None => (acc.0, acc.1 + 1)
  }

  /** The loop as written: it never fails, whatever the content. */
  method ExtractAnchors(content: string) returns (anchors: seq<string>, missed: nat)
    ensures (anchors, missed) == AnchorScan(SplitWhitespace(content))
  {
    var lines := SplitWhitespace(content);
    anchors, missed := [], 0;
    for i := 0 to |lines|
      invariant (anchors, missed) == AnchorScan(lines[..i])
    {
      var line := lines[i];
      assert lines[..i + 1][..i] == lines[..i];
      assert lines[..i + 1][i] == line;
      if Contains(line, "href") {
        var eq := IndexOf(line, '=');
        if eq == |line| {
          assert AnchorOf(line) == None;
          missed := missed + 1;
        } else {
          var first := eq + 2;
          var second;
          if '>' in line {
            second := IndexOf(line, '>') - 1;
          } else if '"' in PySlice(line, first, |line|) {
            second := -2;
          } else {
            second := |line|;
          }
          assert second == AnchorStop(line, first);
          anchors := anchors + [PySlice(line, first, second)];
        }
      }
    }
    assert lines[..|lines|] == lines;
  }

  lemma ScanPieceShift(p: (seq<string>, nat), acc: (seq<string>, nat), line: string)
    ensures ScanPiece((p.0 + acc.0, p.1 + acc.1), line)
         == (p.0 + ScanPiece(acc, line).0, p.1 + ScanPiece(acc, line).1)
  {
    if Contains(line, "href") && AnchorOf(line).Some? {
      assert p.0 + acc.0 + [AnchorOf(line).value] == p.0 + (acc.0 + [AnchorOf(line).value]);
    }
  }

  /** Number of pieces containing "href". */
  function HrefCount(lines: seq<string>): nat
  {
    if lines == [] then 0
    else HrefCount(lines[..|lines| - 1]) + (if Contains(lines[|lines| - 1], "href") then 1 else 0)
  }

  /** Number of pieces containing "href" but no '='. */
  function NoAssignmentCount(lines: seq<string>): nat
  {
    if lines == [] then 0
    else
      var line := lines[|lines| - 1];
      NoAssignmentCount(lines[..|lines| - 1]) + (if Contains(line, "href") && '=' !in line then 1 else 0)
  }

  /** Each "href" piece has exactly one of the two outcomes: the missed
      counter counts the pieces without '=', the anchors are all the others. */
  lemma {:induction false} AnchorAccounting(lines: seq<string>)
    ensures AnchorScan(lines).1 == NoAssignmentCount(lines)
    ensures |AnchorScan(lines).0| + AnchorScan(lines).1 == HrefCount(lines)
    decreases |lines|
  {
    if lines != [] {
      AnchorAccounting(lines[..|lines| - 1]);
    }
  }

  /** Pieces are handled one at a time and in order: the scan of two runs of
      pieces is the scan of the first followed by the scan of the second. */
  lemma {:induction false} AnchorScanAppend(a: seq<string>, b: seq<string>)
    ensures AnchorScan(a + b).0 == AnchorScan(a).0 + AnchorScan(b).0
    ensures AnchorScan(a + b).1 == AnchorScan(a).1 + AnchorScan(b).1
    decreases |b|
  {
    if b == [] {
      assert a + b == a;
    } else {
      var b' := b[..|b| - 1];
      var line := b[|b| - 1];
      AnchorScanAppend(a, b');
      assert (a + b)[..|a + b| - 1] == a + b';
      assert (a + b)[|a + b| - 1] == line;
      assert AnchorScan(a + b) == ScanPiece(AnchorScan(a + b'), line);
      assert AnchorScan(b) == ScanPiece(AnchorScan(b'), line);
      ScanPieceShift(AnchorScan(a), AnchorScan(b'), line);
    }
  }
}
