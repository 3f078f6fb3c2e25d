/** The library splitter of front.go: a configurable marker line, an opening
    probe, a scan of metadata lines up to the closing marker, and a final
    drain of the rest as content.

    The stream is a finite byte sequence read through one cursor. front.go
    wraps its buffered reader in a second `bufio.NewReader` before scanning
    lines; Go returns the argument itself when it is already a
    `*bufio.Reader` with a buffer at least as large as the default, so the
    line scan and the final `io.ReadAll` consume the same cursor, as they do
    in the two hard-wired copies. */
module Front {
  import opened Lines

  const DefaultMarker: Bytes := "---"

  /** `marker` is the bare fence, `delim` the fence with its newline. Go's
      zero value `Splitter{}` (both empty) is a splitter too. */
  datatype Splitter = Splitter(marker: Bytes, delim: Bytes)

  /** The shape every constructed splitter has. */
  predicate Valid(s: Splitter) {
    s.delim == s.marker + [Newline]
  }

  /** Normalise a user marker: drop one trailing newline, keep both forms.
      Go indexes `m[len(m)-1]`, which panics on the empty string. */
  function NewSplitterMark(m: Bytes): (s: Splitter)
    requires |m| > 0
    ensures Valid(s)
    ensures m[|m| - 1] == Newline ==> s.delim == m
    ensures m[|m| - 1] != Newline ==> s.marker == m
  {
    var n := |m| - 1;
    var mark := if m[n] == Newline then m[..n] else m;
    assert m[n] == Newline ==> m == m[..n] + [Newline];
    Splitter(mark, mark + [Newline])
  }

  function NewSplitter(): (s: Splitter)
    ensures s.marker == "---" && s.delim == "---\n"
  {
    NewSplitterMark(DefaultMarker)
  }

  const DefaultSplitter: Splitter := NewSplitter()

  /** A line that closes the metadata: the bare or the newline form. */
  predicate IsFence(s: Splitter, line: Bytes) {
    line == s.marker || line == s.delim
  }

  /** The input opens with a fence as the probe sees it: the input holds a
      whole probe of `|delim|` bytes, the marker is one byte shorter than the
      probe (or both are empty), and the input starts with the marker. The
      probe's last byte is never looked at. */
  predicate Fenced(s: Splitter, input: Bytes) {
    && |input| >= |s.delim|
    && |s.marker| == (if |s.delim| == 0 then 0 else |s.delim| - 1)
    && s.marker <= input
  }

  /** What `readMagic` returns: the bytes it consumed and whether they open a fence. */
  datatype Probe = Probe(magic: Bytes, front: bool)

  /** `readMagic`: `io.ReadFull` of `|delim|` bytes. On `io.EOF` (nothing
      read) or `io.ErrUnexpectedEOF` (a short read) the bytes read so far are
      returned with no fence; on a full read the first `|delim| - 1` bytes
      (never fewer than zero) are compared with the marker. */
  function ReadMagic(s: Splitter, input: Bytes): (p: Probe)
    ensures p.magic <= input
    ensures |p.magic| == if |input| < |s.delim| then |input| else |s.delim|
    ensures p.front <==> Fenced(s, input)
  {
    var n := |s.delim|;
    if |input| < n then
      if |input| == 0 then Probe([], false)
      else Probe(input, false)
    else
      var magic := input[..n];
      var fmm := magic[..if n - 1 < 0 then 0 else n - 1];
      Probe(magic, fmm == s.marker)
  }

  /** The lines the metadata iterator yields and the stream left after it. */
  datatype Scan = Scan(lines: seq<Bytes>, rest: Bytes)

  /** How a scan ends, given the bytes `gap` between the yielded lines and
      the remaining stream: either every byte was yielded and nothing
      remains, or `gap` is one whole fence line (a bare marker only at end of
      input) and the last yielded line, if any, ended in its newline. */
  predicate Closing(s: Splitter, lines: seq<Bytes>, gap: Bytes, rest: Bytes) {
    || (gap == [] && rest == [])
    || (&& IsFence(s, gap)
        && (Complete(gap) || (Newline !in gap && rest == []))
        && (lines == [] || Complete(lines[|lines| - 1])))
  }

  /** What a metadata scan of `r` promises: the yielded lines are whole
      `ReadBytes` lines and none is a fence; they are the front of `r` and
      the remaining stream its back; and the scan ends as `Closing` says, so
      the fence it stops at is the first one. */
  predicate Scanned(s: Splitter, r: Bytes, sc: Scan) {
    var c := Concat(sc.lines);
    && (forall i :: 0 <= i < |sc.lines| ==> !IsFence(s, sc.lines[i]))
    && Whole(sc.lines)
    && |c| + |sc.rest| <= |r|
    && c == r[..|c|]
    && sc.rest == r[|r| - |sc.rest|..]
    && Closing(s, sc.lines, r[|c|..|r| - |sc.rest|], sc.rest)
  }

  /** `readLines`: read lines until one is a fence (consumed, not yielded) or
      until `ReadBytes` reports end of input (that last, possibly empty, line
      is yielded first). */
  function ReadLines(s: Splitter, r: Bytes): (sc: Scan)
    ensures Scanned(s, r, sc)
    decreases |r|
  {
    var rd := NextLine(r);
    if IsFence(s, rd.line) then
      assert r[..|rd.line|] == rd.line;
      Scan([], rd.rest)
    else if rd.eof then
      assert Concat([rd.line]) == rd.line by { ConcatCons(rd.line, []); }
      assert rd.line == r;
      Scan([rd.line], [])
    else
      var sc := ReadLines(s, rd.rest);
      ScannedCons(s, rd.line, rd.rest, sc);
      Scan([rd.line] + sc.lines, sc.rest)
  }

  /** An ordinary complete line in front of a stream is yielded, and the scan
      then continues on the stream behind it. */
  lemma ReadLinesAfterLine(s: Splitter, line: Bytes, t: Bytes)
    requires Complete(line) && !IsFence(s, line)
    ensures var sc := ReadLines(s, t);
      ReadLines(s, line + t) == Scan([line] + sc.lines, sc.rest)
  {
    NextLineOfComplete(line, t);
  }

  /** A closing fence line ends the scan: nothing more is yielded and all
      that follows it is left for the content. */
  lemma ReadLinesAtFence(s: Splitter, f: Bytes, t: Bytes)
    requires IsFence(s, f)
    requires Complete(f) || (Newline !in f && t == [])
    ensures ReadLines(s, f + t) == Scan([], t)
  {
    if Complete(f) {
      NextLineOfComplete(f, t);
    } else {
      assert f + t == f;
    }
  }

  /** A last line without a newline that is not a fence is yielded, and the
      scan stops at end of input. */
  lemma ReadLinesAtEnd(s: Splitter, last: Bytes)
    requires Newline !in last && !IsFence(s, last)
    ensures ReadLines(s, last) == Scan([last], [])
  {
  }

  /** A scan of `rest` preceded by one ordinary complete line is a scan of
      `line + rest`. */
  lemma ScannedCons(s: Splitter, line: Bytes, rest: Bytes, sc: Scan)
    requires Complete(line) && !IsFence(s, line)
    requires Scanned(s, rest, sc)
    ensures Scanned(s, line + rest, Scan([line] + sc.lines, sc.rest))
  {
    var lines := [line] + sc.lines;
    assert lines[1..] == sc.lines;
    var c := Concat(sc.lines);
    assert Concat(lines) == line + c;
    var r := line + rest;
    assert line + c == r[..|line| + |c|];
    assert sc.rest == r[|r| - |sc.rest|..];
    assert r[|line| + |c|..|r| - |sc.rest|] == rest[|c|..|rest| - |sc.rest|];
    LinesCons(s, line, sc.lines, rest[|c|..|rest| - |sc.rest|], sc.rest);
  }

  /** The line-wise parts of `Scanned` survive one more ordinary complete
      line in front. */
  lemma LinesCons(s: Splitter, line: Bytes, ls: seq<Bytes>, gap: Bytes, rest: Bytes)
    requires Complete(line) && !IsFence(s, line)
    requires forall i :: 0 <= i < |ls| ==> !IsFence(s, ls[i])
    requires Whole(ls) && Closing(s, ls, gap, rest)
    ensures var lines := [line] + ls;
      && (forall i :: 0 <= i < |lines| ==> !IsFence(s, lines[i]))
      && Whole(lines)
      && Closing(s, lines, gap, rest)
  {
    var lines := [line] + ls;
    forall i | 0 <= i < |lines| ensures !IsFence(s, lines[i]) {
      if i > 0 {
        assert lines[i] == ls[i - 1];
      }
    }
    forall i | 0 <= i < |lines| - 1 ensures Complete(lines[i]) {
      if i > 0 {
        assert lines[i] == ls[i - 1];
      }
    }
    assert lines[|lines| - 1] == if ls == [] then line else ls[|ls| - 1];
  }

  /** Every line of `m`, as `ReadBytes` cuts it, is an ordinary line. */
  predicate NoFenceLine(s: Splitter, m: Bytes) {
    forall i :: 0 <= i < |LinesOf(m)| ==> !IsFence(s, LinesOf(m)[i])
  }

  /** What a split promises about the stream `body` after the opening probe:
      the metadata is the front of `body` and holds no fence line; the
      content is its back; and between them lies either nothing (no fence
      closed the metadata, and there is no content) or one whole fence line
      that starts where a metadata line ended. So the metadata stops at the
      first fence line, and everything after that line is the content. */
  predicate Cut(s: Splitter, body: Bytes, meta: Bytes, content: Bytes) {
    && |meta| + |content| <= |body|
    && meta == body[..|meta|]
    && content == body[|body| - |content|..]
    && NoFenceLine(s, meta)
    && var gap := body[|meta|..|body| - |content|];
       || (gap == [] && content == [])
       || (&& IsFence(s, gap)
           && (Complete(gap) || (Newline !in gap && content == []))
           && (meta == [] || meta[|meta| - 1] == Newline))
  }

  /** A scan, its lines joined, is a cut of the stream it scanned. */
  lemma ScannedCut(s: Splitter, r: Bytes, sc: Scan)
    requires Scanned(s, r, sc)
    ensures Cut(s, r, Concat(sc.lines), sc.rest)
  {
    var c := Concat(sc.lines);
    LinesOfWhole(sc.lines);
    forall i | 0 <= i < |LinesOf(c)| ensures !IsFence(s, LinesOf(c)[i]) {
      var k :| 0 <= k < |sc.lines| && sc.lines[k] == LinesOf(c)[i];
    }
    if r[|c|..|r| - |sc.rest|] != [] && sc.lines != [] {
      ConcatEndsInNewline(sc.lines);
    }
  }

  /** The two results of a split; the read error is always nil on a finite stream. */
  datatype Parts = Parts(meta: Bytes, content: Bytes)

  /** `Splitter.Split`: without an opening fence every byte, the probe
      included, is content; with one, the metadata lines are collected and
      whatever follows the closing fence is content. */
  function Split(s: Splitter, input: Bytes): (r: Parts)
    ensures !Fenced(s, input) ==> r == Parts([], input)
    ensures Fenced(s, input) ==> Cut(s, input[|s.delim|..], r.meta, r.content)
  {
    var p := ReadMagic(s, input);
    var after := input[|p.magic|..];
    if p.front then
      // content starts empty and receives the drained remainder
      var sc := ReadLines(s, after);
      assert after == input[|s.delim|..];
      ScannedCut(s, after, sc);
      Parts(Concat(sc.lines), sc.rest)
    else
      assert p.magic + after == input;
      Parts([], p.magic + after)
  }

  /** The package-level `Split`, on `DefaultSplitter`. */
  function DefaultSplit(input: Bytes): (r: Parts)
    ensures !(|input| >= 4 && "---" <= input) ==> r == Parts([], input)
  {
    Split(DefaultSplitter, input)
  }
}
