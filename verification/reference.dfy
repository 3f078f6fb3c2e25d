/** An independent statement of what a split means, over the input already
    cut into lines, and the properties of `Front.Split` that follow: the
    documented fence shapes, the unchecked probe byte, unterminated metadata,
    the zero-value splitter, and marker normalisation. */
module FrontSpec {
  import opened Lines
  import opened Front

  /** Index of the first fence line in `ls`, or `|ls|` when there is none. */
  function FirstFence(s: Splitter, ls: seq<Bytes>): (k: nat)
    ensures k <= |ls|
    ensures forall i :: 0 <= i < k ==> !IsFence(s, ls[i])
    ensures k < |ls| ==> IsFence(s, ls[k])
  {
    if ls == [] then 0
    else if IsFence(s, ls[0]) then 0
    else
      var k := FirstFence(s, ls[1..]);
      assert forall i :: 1 <= i < k + 1 ==> ls[i] == ls[1..][i - 1];
      1 + k
  }

  /** A split stated over lines: without an opening fence the input is all
      content; with one, the metadata is the lines after the probe up to the
      first fence line, and the content is the lines after that fence (none
      when no fence closes the metadata). */
  function Reference(s: Splitter, input: Bytes): Parts {
    if !Fenced(s, input) then Parts([], input)
    else
      var ls := LinesOf(input[|s.delim|..]);
      var k := FirstFence(s, ls);
      if k < |ls| then Parts(Concat(ls[..k]), Concat(ls[k + 1..]))
      else Parts(Concat(ls), [])
  }

  /** The metadata scan agrees with the line-based statement on every stream. */
  lemma {:induction false} ReadLinesIsReference(s: Splitter, r: Bytes)
    ensures var ls := LinesOf(r);
      var k := FirstFence(s, ls);
      var sc := ReadLines(s, r);
      && Concat(sc.lines) == Concat(ls[..k])
      && sc.rest == (if k < |ls| then Concat(ls[k + 1..]) else [])
    decreases |r|
  {
    var ls := LinesOf(r);
    var rd := NextLine(r);
    var sc := ReadLines(s, r);
    if r == [] {
      assert ls == [];
      assert sc.lines == [] || sc.lines == [[]];
      ConcatCons([], []);
      assert Concat(sc.lines) == [] && sc.rest == [];
    } else {
      var tail := LinesOf(rd.rest);
      assert ls == [rd.line] + tail;
      TailCons(rd.line, tail);
      if IsFence(s, rd.line) {
        assert sc == Scan([], rd.rest);
        assert FirstFence(s, ls) == 0;
        LinesRoundTrip(rd.rest);
        assert Concat(ls[1..]) == rd.rest;
      } else if rd.eof {
        assert sc == Scan([rd.line], []);
        assert tail == [];
        assert FirstFence(s, ls) == |ls|;
        TakeAll(ls);
      } else {
        var inner := ReadLines(s, rd.rest);
        ReadLinesIsReference(s, rd.rest);
        ReferenceStep(s, rd.line, tail, inner.lines, inner.rest);
        ReadLinesAfterLine(s, rd.line, rd.rest);
      }
    }
  }

  /** The empty line that the last `ReadBytes` returns at end of input, when
      the stream is empty or ends in a newline; `readLines` yields it unless
      it is itself a fence. */
  function EofLine(s: Splitter, r: Bytes): seq<Bytes> {
    if (r == [] || r[|r| - 1] == Newline) && !IsFence(s, []) then [[]] else []
  }

  /** The exact list the scan yields: the input's lines before the first
      fence line, and, when no fence line exists, all of them followed by the
      empty end-of-input line (unless that one is a fence). */
  lemma {:induction false} ReadLinesYields(s: Splitter, r: Bytes)
    ensures var ls := LinesOf(r);
      var k := FirstFence(s, ls);
      ReadLines(s, r).lines == (if k < |ls| then ls[..k] else ls + EofLine(s, r))
    decreases |r|
  {
    var ls := LinesOf(r);
    var rd := NextLine(r);
    if r == [] {
      assert ls == [] && rd.line == [] && rd.eof;
      assert ReadLines(s, r).lines == ls + EofLine(s, r);
    } else {
      var tail := LinesOf(rd.rest);
      assert ls == [rd.line] + tail;
      TailCons(rd.line, tail);
      if IsFence(s, rd.line) {
        assert FirstFence(s, ls) == 0;
        assert ReadLines(s, r).lines == [];
      } else if rd.eof {
        assert tail == [] && rd.line == r;
        assert FirstFence(s, ls) == |ls|;
        assert r[|r| - 1] in r;
        assert EofLine(s, r) == [];
        assert ReadLines(s, r).lines == [r];
      } else {
        ReadLinesYields(s, rd.rest);
        YieldsStep(s, rd.line, rd.rest, tail, ReadLines(s, rd.rest).lines);
        ReadLinesAfterLine(s, rd.line, rd.rest);
      }
    }
  }

  /** One ordinary complete line in front of a stream adds that line in
      front of the yielded list. */
  lemma YieldsStep(s: Splitter, line: Bytes, t: Bytes, tail: seq<Bytes>, inner: seq<Bytes>)
    requires Complete(line) && !IsFence(s, line)
    requires var k := FirstFence(s, tail);
      inner == (if k < |tail| then tail[..k] else tail + EofLine(s, t))
    ensures var ls := [line] + tail;
      var k := FirstFence(s, ls);
      [line] + inner == (if k < |ls| then ls[..k] else ls + EofLine(s, line + t))
  {
    var ls := [line] + tail;
    var k' := FirstFence(s, tail);
    TailCons(line, tail);
    assert FirstFence(s, ls) == k' + 1;
    if k' < |tail| {
      TakeCons(line, tail, k');
    } else {
      var r := line + t;
      assert r[|r| - 1] == (if t == [] then line[|line| - 1] else t[|t| - 1]);
      assert EofLine(s, r) == EofLine(s, t);
    }
  }

  /** One ordinary line in front of a line list moves the first fence one
      place on and adds that line to the lines before it. */
  lemma ReferenceStep(s: Splitter, line: Bytes, tail: seq<Bytes>, lines: seq<Bytes>, rest: Bytes)
    requires !IsFence(s, line)
    requires var k := FirstFence(s, tail);
      && Concat(lines) == Concat(tail[..k])
      && rest == (if k < |tail| then Concat(tail[k + 1..]) else [])
    ensures var ls := [line] + tail;
      var k := FirstFence(s, ls);
      && Concat([line] + lines) == Concat(ls[..k])
      && rest == (if k < |ls| then Concat(ls[k + 1..]) else [])
  {
    var ls := [line] + tail;
    var k' := FirstFence(s, tail);
    TailCons(line, tail);
    assert FirstFence(s, ls) == k' + 1;
    ConcatCons(line, lines);
    TakeCons(line, tail, k');
    ConcatCons(line, tail[..k']);
    if k' < |tail| {
      DropCons(line, tail, k');
    }
  }

  /** `Front.Split` is the line-based statement of a split, on every splitter
      and every input. */
  lemma SplitIsReference(s: Splitter, input: Bytes)
    ensures Split(s, input) == Reference(s, input)
  {
    if Fenced(s, input) {
      var body := input[|s.delim|..];
      SplitFenced(s, input);
      ReadLinesIsReference(s, body);
      var ls := LinesOf(body);
      TakeAll(ls);
      var k := FirstFence(s, ls);
      var sc := ReadLines(s, body);
      if k < |ls| {
        assert Reference(s, input) == Parts(Concat(ls[..k]), Concat(ls[k + 1..]));
      } else {
        assert Reference(s, input) == Parts(Concat(ls), []);
      }
      assert Split(s, input) == Parts(Concat(sc.lines), sc.rest);
    }
  }

  /** Complete, non-fence lines in front of a stream are yielded one by one
      and the scan then carries on exactly as on the stream alone. */
  lemma {:induction false} ReadLinesPastLines(s: Splitter, ls: seq<Bytes>, t: Bytes)
    requires forall i :: 0 <= i < |ls| ==> Complete(ls[i]) && !IsFence(s, ls[i])
    ensures var sc := ReadLines(s, t);
      ReadLines(s, Concat(ls) + t) == Scan(ls + sc.lines, sc.rest)
    decreases |ls|
  {
    if ls != [] {
      var line, more := ls[0], ls[1..];
      var r' := Concat(more) + t;
      assert Concat(ls) + t == line + r' by {
        ConcatCons(line, more);
        assert [line] + more == ls;
      }
      ReadLinesAfterLine(s, line, r');
      ReadLinesPastLines(s, more, t);
      var sc := ReadLines(s, t);
      assert ls == [line] + more;
      ConsAppend(line, more, sc.lines);
    } else {
      assert Concat(ls) + t == t;
      assert ls + ReadLines(s, t).lines == ReadLines(s, t).lines;
    }
  }

  /** The shapes of input the splitter is for. */
  predicate Plain(s: Splitter, ls: seq<Bytes>) {
    forall i :: 0 <= i < |ls| ==> Complete(ls[i]) && !IsFence(s, ls[i])
  }

  /** With an opening fence the split is the metadata scan of what follows
      the probe. */
  lemma SplitFenced(s: Splitter, input: Bytes)
    requires Fenced(s, input)
    ensures var sc := ReadLines(s, input[|s.delim|..]);
      Split(s, input) == Parts(Concat(sc.lines), sc.rest)
  {
    assert ReadMagic(s, input).magic == input[..|s.delim|];
  }

  /** For a constructed splitter, the marker followed by any byte at all is an
      opening fence, and the scan starts right after that byte. */
  lemma OpeningProbe(s: Splitter, b: Byte, body: Bytes)
    requires Valid(s)
    ensures Fenced(s, s.marker + [b] + body)
    ensures (s.marker + [b] + body)[|s.delim|..] == body
  {
    assert (s.marker + [b] + body)[..|s.marker|] == s.marker;
  }

  /** An opening fence, plain metadata lines and a closing fence line: the
      metadata comes back verbatim and everything after the closing fence is
      the content. The byte after the opening marker is never compared, so any
      byte `b` there opens the fence as the newline does. */
  lemma ClosedFence(s: Splitter, b: Byte, ls: seq<Bytes>, c: Bytes)
    requires Valid(s) && Newline !in s.marker
    requires Plain(s, ls)
    ensures Split(s, s.marker + [b] + (Concat(ls) + s.delim + c)) == Parts(Concat(ls), c)
  {
    var body := Concat(ls) + s.delim + c;
    OpeningProbe(s, b, body);
    SplitFenced(s, s.marker + [b] + body);
    assert Complete(s.delim) by {
      assert s.delim[..|s.delim| - 1] == s.marker;
    }
    ReadLinesAtFence(s, s.delim, c);
    AppendAssoc(Concat(ls), s.delim, c);
    ReadLinesPastLines(s, ls, s.delim + c);
    AppendNil(ls);
  }

  /** The same with a bare closing marker at end of input: no content. */
  lemma BareFence(s: Splitter, b: Byte, ls: seq<Bytes>)
    requires Valid(s) && Newline !in s.marker
    requires Plain(s, ls)
    ensures Split(s, s.marker + [b] + (Concat(ls) + s.marker)) == Parts(Concat(ls), [])
  {
    var body := Concat(ls) + s.marker;
    OpeningProbe(s, b, body);
    SplitFenced(s, s.marker + [b] + body);
    ReadLinesAtFence(s, s.marker, []);
    assert s.marker + [] == s.marker;
    ReadLinesPastLines(s, ls, s.marker);
    AppendNil(ls);
  }

  /** Metadata that no fence closes is not an error: the last line, ended by
      end of input rather than a newline, is kept and the content is empty. */
  lemma Unterminated(s: Splitter, b: Byte, ls: seq<Bytes>, last: Bytes)
    requires Valid(s)
    requires Plain(s, ls)
    requires Newline !in last && last != s.marker
    ensures Split(s, s.marker + [b] + (Concat(ls) + last)) == Parts(Concat(ls) + last, [])
  {
    var body := Concat(ls) + last;
    OpeningProbe(s, b, body);
    SplitFenced(s, s.marker + [b] + body);
    assert Newline in s.delim;
    ReadLinesAtEnd(s, last);
    ReadLinesPastLines(s, ls, last);
    ConcatAppend(ls, [last]);
    ConcatCons(last, []);
  }

  /** Go's zero value `Splitter{}` has an empty probe that always matches and
      only the empty line as a fence, so every input is all metadata. */
  lemma ZeroSplitter(input: Bytes)
    ensures Split(Splitter([], []), input) == Parts(input, [])
  {
    var s := Splitter([], []);
    SplitIsReference(s, input);
    var ls := LinesOf(input);
    LinesRoundTrip(input);
    assert input[0..] == input;
    assert FirstFence(s, ls) == |ls|;
  }

  /** A trailing newline on the marker is normalised away: `m` and `m + "\n"`
      give the same splitter exactly when `m` does not itself end in a newline. */
  lemma NewSplitterMarkNormalises(m: Bytes)
    requires |m| > 0
    ensures NewSplitterMark(m + [Newline]) == NewSplitterMark(m) <==> m[|m| - 1] != Newline
  {
    var s := NewSplitterMark(m);
    var t := NewSplitterMark(m + [Newline]);
    assert (m + [Newline])[..|m|] == m;
    if m[|m| - 1] == Newline {
      assert |t.marker| == |m| != |s.marker|;
    }
  }

  /** Constructing a splitter from a splitter's newline form gives it back. */
  lemma NewSplitterMarkIdempotent(m: Bytes)
    requires |m| > 0
    ensures var s := NewSplitterMark(m); NewSplitterMark(s.delim) == s
  {
    var s := NewSplitterMark(m);
    assert s.delim[..|s.delim| - 1] == s.marker;
  }
}
