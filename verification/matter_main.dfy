/** The splitter of the top-level `front` program (main.go): the same probe
    and line scan as the `front` command, returning one `Split` record. */
module MatterMain {
  import opened Lines
  import Front
  import MatterCmd

  /** The metadata bytes and the content bytes of one input. */
  datatype Split = Split(matter: Bytes, content: Bytes)

  /** `splitMatter`: the probe is content when it does not open a fence;
      otherwise the metadata lines are gathered, and the stream left after
      them is drained into the content. */
  function SplitMatter(input: Bytes): (r: Split)
    ensures !(|input| >= 4 && input[..3] == "---") ==> r == Split([], input)
    ensures |input| >= 4 && input[..3] == "---" ==>
      Front.Cut(Front.NewSplitter(), input[4..], r.matter, r.content)
  {
    var p := MatterCmd.ReadMagic(input);
    var after := input[|p.magic|..];
    var matter := if p.front then Concat(MatterCmd.MatterLines(after).lines) else [];
    var content := if p.front then MatterCmd.MatterLines(after).rest else p.magic + after;
    assert p.front ==> Front.Cut(Front.NewSplitter(), after, matter, content) by {
      if p.front {
        MatterCmd.MatterLinesIsReadLines(after);
        Front.ScannedCut(Front.NewSplitter(), after, MatterCmd.MatterLines(after));
      }
    }
    assert p.magic + after == input;
    Split(matter, content)
  }

  /** The two programs split every input alike, and both agree with the
      library's `Split` on `NewSplitter()`. */
  lemma SplitMatterAgrees(input: Bytes)
    ensures var r := SplitMatter(input);
      && r.matter == MatterCmd.SplitMatter(input).meta
      && r.content == MatterCmd.SplitMatter(input).content
      && Front.Split(Front.NewSplitter(), input) == Front.Parts(r.matter, r.content)
  {
    MatterCmd.SplitMatterIsDefault(input);
  }

  /** Content that does not itself open with `---` splits again into no
      matter and the same content: a second pass is the identity on it. */
  lemma ResplitContent(input: Bytes)
    requires var c := SplitMatter(input).content; !(|c| >= 4 && c[..3] == "---")
    ensures var c := SplitMatter(input).content; SplitMatter(c) == Split([], c)
  {
  }
}
