/** The splitter of the `front` command (cmd/front/main.go), hard-wired to the
    `---` fence, and the `Output` record it fills. */
module MatterCmd {
  import opened Lines
  import Front

  const MatterDelim: Bytes := "---\n"
  const MatterMark: Bytes := MatterDelim[..3]

  /** `readMagic` over the fixed four-byte probe: a short input is returned as
      read with no fence; a full probe opens a fence when its first three
      bytes are `---`, whatever the fourth byte is. */
  function ReadMagic(input: Bytes): (p: Front.Probe)
    ensures p.magic <= input
    ensures |p.magic| == if |input| < 4 then |input| else 4
    ensures p.front <==> |input| >= 4 && input[..3] == "---"
  {
    var n := |MatterDelim|;
    if |input| < n then
      if |input| == 0 then Front.Probe([], false)
      else Front.Probe(input, false)
    else
      var magic := input[..n];
      var fmm := magic[..if n - 1 < 0 then 0 else n - 1];
      Front.Probe(magic, fmm == MatterMark)
  }

  /** `matterLines`: the lines up to the first `---` or `---\n` line, which is
      consumed, or up to end of input. */
  function MatterLines(r: Bytes): (sc: Front.Scan)
    ensures forall i :: 0 <= i < |sc.lines| ==> sc.lines[i] != "---" && sc.lines[i] != "---\n"
    decreases |r|
  {
    var rd := NextLine(r);
    if rd.line == MatterMark || rd.line == MatterDelim then Front.Scan([], rd.rest)
    else if rd.eof then Front.Scan([rd.line], [])
    else
      var sc := MatterLines(rd.rest);
      assert forall i :: 1 <= i < 1 + |sc.lines| ==> ([rd.line] + sc.lines)[i] == sc.lines[i - 1];
      Front.Scan([rd.line] + sc.lines, sc.rest)
  }

  /** `splitMatter`: without a `---` probe the whole input is content. */
  function SplitMatter(input: Bytes): (r: Front.Parts)
    ensures !(|input| >= 4 && input[..3] == "---") ==> r == Front.Parts([], input)
  {
    var p := ReadMagic(input);
    var after := input[|p.magic|..];
    if p.front then
      var sc := MatterLines(after);
      Front.Parts(Concat(sc.lines), sc.rest)
    else
      assert p.magic + after == input;
      Front.Parts([], p.magic + after)
  }

  /** The command's line scan is the library's scan on the default splitter. */
  lemma {:induction false} MatterLinesIsReadLines(r: Bytes)
    ensures MatterLines(r) == Front.ReadLines(Front.NewSplitter(), r)
    decreases |r|
  {
    var rd := NextLine(r);
    if !(rd.line == MatterMark || rd.line == MatterDelim) && !rd.eof {
      MatterLinesIsReadLines(rd.rest);
    }
  }

  /** `splitMatter` is `Split` of the library on `NewSplitter()`, on every input. */
  lemma SplitMatterIsDefault(input: Bytes)
    ensures SplitMatter(input) == Front.Split(Front.NewSplitter(), input)
  {
    var s := Front.NewSplitter();
    assert ReadMagic(input) == Front.ReadMagic(s, input);
    MatterLinesIsReadLines(input[|ReadMagic(input).magic|..]);
  }

  /** The JSON record the command writes; the decoded metadata is opaque here. */
  datatype Output<M> = Output(meta: M, path: string, content: Bytes)

  /** `SetContent` replaces the content and nothing else. */
  function SetContent<M>(o: Output<M>, c: Bytes): (r: Output<M>)
    ensures r.content == c
    ensures r.meta == o.meta && r.path == o.path
  {
    o.(content := c)
  }

  /** Setting the content twice keeps only the second, and setting it to what
      it already is changes nothing. */
  lemma SetContentOverwrites<M>(o: Output<M>, a: Bytes, b: Bytes)
    ensures SetContent(SetContent(o, a), b) == SetContent(o, b)
    ensures SetContent(o, o.content) == o
  {
  }
}
