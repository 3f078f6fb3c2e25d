/** The documented inputs of the splitter on the default `---` fence, each
    derived from the general properties in `FrontSpec`: the row table shared
    by the two commands' tests, the library's own test cases, and the
    unchecked fourth probe byte. */
module FrontCases {
  import opened Lines
  import opened Front
  import opened FrontSpec

  lemma Concat1(a: Bytes)
    ensures Concat([a]) == a
  {
    ConcatCons(a, []);
  }

  lemma Concat2(a: Bytes, b: Bytes)
    ensures Concat([a, b]) == a + b
  {
    ConcatCons(a, [b]);
    assert [a] + [b] == [a, b];
    Concat1(b);
  }

  lemma Concat3(a: Bytes, b: Bytes, c: Bytes)
    ensures Concat([a, b, c]) == a + b + c
  {
    ConcatCons(a, [b, c]);
    assert [a] + [b, c] == [a, b, c];
    Concat2(b, c);
  }

  /** `ClosedFence` on three plain metadata lines, without the list. */
  lemma ThreeClosed(s: Splitter, a: Bytes, b: Bytes, c: Bytes, rest: Bytes)
    requires Valid(s) && Newline !in s.marker
    requires Complete(a) && !IsFence(s, a)
    requires Complete(b) && !IsFence(s, b)
    requires Complete(c) && !IsFence(s, c)
    ensures Split(s, s.marker + [Newline] + (a + b + c + s.delim + rest)) == Parts(a + b + c, rest)
  {
    var ls: seq<Bytes> := [a, b, c];
    Concat3(a, b, c);
    assert Plain(s, ls);
    ClosedFence(s, Newline, ls, rest);
  }

  /** `BareFence` on three plain metadata lines, without the list. */
  lemma ThreeBare(s: Splitter, a: Bytes, b: Bytes, c: Bytes)
    requires Valid(s) && Newline !in s.marker
    requires Complete(a) && !IsFence(s, a)
    requires Complete(b) && !IsFence(s, b)
    requires Complete(c) && !IsFence(s, c)
    ensures Split(s, s.marker + [Newline] + (a + b + c + s.marker)) == Parts(a + b + c, [])
  {
    var ls: seq<Bytes> := [a, b, c];
    Concat3(a, b, c);
    assert Plain(s, ls);
    BareFence(s, Newline, ls);
  }

  /** Inputs shorter than the four-byte probe are content, the bare `---`
      included. */
  lemma InvalidMagic()
    ensures DefaultSplit("") == Parts("", "")
    ensures DefaultSplit("-") == Parts("", "-")
    ensures DefaultSplit("--") == Parts("", "--")
    ensures DefaultSplit("---") == Parts("", "---")
  {
    var s := DefaultSplitter;
    assert !Fenced(s, "---");
  }

  /** An opening fence and nothing after it. */
  lemma FenceOnly()
    ensures DefaultSplit("---\n") == Parts("", "")
  {
    var s := DefaultSplitter;
    assert "---\n" == "---" + ['\n'] + ([] + []);
    assert Concat([]) == [];
    Unterminated(s, '\n', [], []);
  }

  /** An opening fence directly followed by a bare closing marker. */
  lemma EmptyBareFence()
    ensures DefaultSplit("---\n---") == Parts("", "")
  {
    var s := DefaultSplitter;
    assert "---\n---" == "---" + ['\n'] + ([] + "---");
    assert Concat([]) == [];
    BareFence(s, '\n', []);
  }

  /** An opening fence directly followed by a closing fence line. */
  lemma EmptyClosedFence()
    ensures DefaultSplit("---\n---\n") == Parts("", "")
  {
    var s := DefaultSplitter;
    assert "---\n---\n" == "---" + ['\n'] + ([] + "---\n" + []);
    assert Concat([]) == [];
    ClosedFence(s, '\n', [], []);
  }

  /** Without a closing fence the rest of the input is metadata, last line included. */
  lemma NoMatterEnd()
    ensures DefaultSplit("---\nL1\nL2") == Parts("L1\nL2", "")
  {
    var s := DefaultSplitter;
    assert "L1\n" + "L2" == "L1\nL2";
    assert "---\nL1\nL2" == "---" + ['\n'] + ("L1\n" + "L2");
    var ls: seq<Bytes> := ["L1\n"];
    Concat1("L1\n");
    assert Plain(s, ls);
    Unterminated(s, '\n', ["L1\n"], "L2");
  }

  /** The same when the last metadata line ends in a newline. */
  lemma NoMatterEndNewline()
    ensures DefaultSplit("---\nL1\nL2\n") == Parts("L1\nL2\n", "")
  {
    var s := DefaultSplitter;
    assert "L1\n" + "L2\n" + [] == "L1\nL2\n";
    assert "---\nL1\nL2\n" == "---" + ['\n'] + ("L1\n" + "L2\n" + []);
    var ls: seq<Bytes> := ["L1\n", "L2\n"];
    Concat2("L1\n", "L2\n");
    assert Plain(s, ls);
    Unterminated(s, '\n', ["L1\n", "L2\n"], []);
  }

  /** Closed metadata, bare closing marker at end of input: no content. */
  lemma ClosedBare()
    ensures DefaultSplit("---\nL1\nL2\nL3\n---") == Parts("L1\nL2\nL3\n", "")
  {
    var s := DefaultSplitter;
    assert "L1\n" + "L2\n" + "L3\n" == "L1\nL2\nL3\n";
    assert "---\nL1\nL2\nL3\n---" == "---" + [Newline] + ("L1\n" + "L2\n" + "L3\n" + "---");
    ThreeBare(s, "L1\n", "L2\n", "L3\n");
  }

  /** Closed metadata, closing fence line at end of input: no content. */
  lemma ClosedNoContent()
    ensures DefaultSplit("---\nL1\nL2\nL3\n---\n") == Parts("L1\nL2\nL3\n", "")
  {
    var s := DefaultSplitter;
    assert "L1\n" + "L2\n" + "L3\n" == "L1\nL2\nL3\n";
    assert "---\nL1\nL2\nL3\n---\n" == "---" + [Newline] + ("L1\n" + "L2\n" + "L3\n" + "---\n" + []);
    ThreeClosed(s, "L1\n", "L2\n", "L3\n", []);
  }

  /** Closed metadata followed by content without a final newline. */
  lemma ClosedContent()
    ensures DefaultSplit("---\nL1\nL2\nL3\n---\nDATA") == Parts("L1\nL2\nL3\n", "DATA")
  {
    var s := DefaultSplitter;
    assert "L1\n" + "L2\n" + "L3\n" == "L1\nL2\nL3\n";
    assert "---\nL1\nL2\nL3\n---\nDATA" == "---" + [Newline] + ("L1\n" + "L2\n" + "L3\n" + "---\n" + "DATA");
    ThreeClosed(s, "L1\n", "L2\n", "L3\n", "DATA");
  }

  /** Closed metadata followed by content with a final newline. */
  lemma ClosedContentNewline()
    ensures DefaultSplit("---\nL1\nL2\nL3\n---\nDATA\n") == Parts("L1\nL2\nL3\n", "DATA\n")
  {
    var s := DefaultSplitter;
    assert "L1\n" + "L2\n" + "L3\n" == "L1\nL2\nL3\n";
    assert "---\nL1\nL2\nL3\n---\nDATA\n" == "---" + [Newline] + ("L1\n" + "L2\n" + "L3\n" + "---\n" + "DATA\n");
    ThreeClosed(s, "L1\n", "L2\n", "L3\n", "DATA\n");
  }

  /** The library's own test: input without a fence is content. */
  lemma LibraryPlain()
    ensures DefaultSplit("content") == Parts("", "content")
  {
    assert "content"[0] == 'c' != "---"[0];
  }

  /** The library's own test: one metadata line closed by a bare marker. */
  lemma LibraryBare()
    ensures DefaultSplit("---\nmeta\n---") == Parts("meta\n", "")
  {
    var s := DefaultSplitter;
    assert "---\nmeta\n---" == "---" + ['\n'] + ("meta\n" + "---");
    var ls: seq<Bytes> := ["meta\n"];
    Concat1("meta\n");
    assert Plain(s, ls);
    BareFence(s, '\n', ls);
  }

  /** The library's own test: one metadata line closed by a fence line. */
  lemma LibraryNoContent()
    ensures DefaultSplit("---\nmeta\n---\n") == Parts("meta\n", "")
  {
    var s := DefaultSplitter;
    assert "---\nmeta\n---\n" == "---" + ['\n'] + ("meta\n" + "---\n" + []);
    var ls: seq<Bytes> := ["meta\n"];
    Concat1("meta\n");
    assert Plain(s, ls);
    ClosedFence(s, '\n', ls, []);
  }

  /** The library's own test: metadata then content. */
  lemma LibraryContent()
    ensures DefaultSplit("---\nmeta\n---\ncontent") == Parts("meta\n", "content")
  {
    var s := DefaultSplitter;
    assert "---\nmeta\n---\ncontent" == "---" + ['\n'] + ("meta\n" + "---\n" + "content");
    var ls: seq<Bytes> := ["meta\n"];
    Concat1("meta\n");
    assert Plain(s, ls);
    ClosedFence(s, '\n', ls, "content");
  }

  /** The library's own test: metadata then content ending in a newline. */
  lemma LibraryContentNewline()
    ensures DefaultSplit("---\nmeta\n---\ncontent\n") == Parts("meta\n", "content\n")
  {
    var s := DefaultSplitter;
    assert "---\nmeta\n---\ncontent\n" == "---" + ['\n'] + ("meta\n" + "---\n" + "content\n");
    var ls: seq<Bytes> := ["meta\n"];
    Concat1("meta\n");
    assert Plain(s, ls);
    ClosedFence(s, '\n', ls, "content\n");
  }

  /** The fourth probe byte is consumed but never compared: `---x` opens a
      fence, and the rest of that line becomes an empty first metadata line. */
  lemma UncheckedProbeByte()
    ensures DefaultSplit("---x\nfoo") == Parts("\nfoo", "")
  {
    var s := DefaultSplitter;
    assert "\n" + "foo" == "\nfoo";
    assert "---x\nfoo" == "---" + ['x'] + ("\n" + "foo");
    Concat1("\n");
    Unterminated(s, 'x', ["\n"], "foo");
  }
}
