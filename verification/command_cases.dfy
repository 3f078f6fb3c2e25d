/** The test table that cmd/front/main_test.go and main_test.go share, for
    each of the two commands. */
module CommandCases {
  import opened Front
  import opened FrontCases
  import MatterCmd
  import MatterMain

  /** The `front` command's test table, every row: each follows from the library's
      behaviour on the default splitter. */
  lemma CommandTable()
    ensures MatterCmd.SplitMatter("") == Parts("", "")
    ensures MatterCmd.SplitMatter("-") == Parts("", "-")
    ensures MatterCmd.SplitMatter("--") == Parts("", "--")
    ensures MatterCmd.SplitMatter("---") == Parts("", "---")
    ensures MatterCmd.SplitMatter("---\n") == Parts("", "")
    ensures MatterCmd.SplitMatter("---\n---") == Parts("", "")
    ensures MatterCmd.SplitMatter("---\n---\n") == Parts("", "")
    ensures MatterCmd.SplitMatter("---\nL1\nL2") == Parts("L1\nL2", "")
    ensures MatterCmd.SplitMatter("---\nL1\nL2\n") == Parts("L1\nL2\n", "")
    ensures MatterCmd.SplitMatter("---\nL1\nL2\nL3\n---") == Parts("L1\nL2\nL3\n", "")
    ensures MatterCmd.SplitMatter("---\nL1\nL2\nL3\n---\n") == Parts("L1\nL2\nL3\n", "")
    ensures MatterCmd.SplitMatter("---\nL1\nL2\nL3\n---\nDATA") == Parts("L1\nL2\nL3\n", "DATA")
    ensures MatterCmd.SplitMatter("---\nL1\nL2\nL3\n---\nDATA\n") == Parts("L1\nL2\nL3\n", "DATA\n")
  {
    assert MatterCmd.SplitMatter("") == Parts("", "") by {
      InvalidMagic();
      MatterCmd.SplitMatterIsDefault("");
    }
    assert MatterCmd.SplitMatter("-") == Parts("", "-") by {
      InvalidMagic();
      MatterCmd.SplitMatterIsDefault("-");
    }
    assert MatterCmd.SplitMatter("--") == Parts("", "--") by {
      InvalidMagic();
      MatterCmd.SplitMatterIsDefault("--");
    }
    assert MatterCmd.SplitMatter("---") == Parts("", "---") by {
      InvalidMagic();
      MatterCmd.SplitMatterIsDefault("---");
    }
    assert MatterCmd.SplitMatter("---\n") == Parts("", "") by {
      FenceOnly();
      MatterCmd.SplitMatterIsDefault("---\n");
    }
    assert MatterCmd.SplitMatter("---\n---") == Parts("", "") by {
      EmptyBareFence();
      MatterCmd.SplitMatterIsDefault("---\n---");
    }
    assert MatterCmd.SplitMatter("---\n---\n") == Parts("", "") by {
      EmptyClosedFence();
      MatterCmd.SplitMatterIsDefault("---\n---\n");
    }
    assert MatterCmd.SplitMatter("---\nL1\nL2") == Parts("L1\nL2", "") by {
      NoMatterEnd();
      MatterCmd.SplitMatterIsDefault("---\nL1\nL2");
    }
    assert MatterCmd.SplitMatter("---\nL1\nL2\n") == Parts("L1\nL2\n", "") by {
      NoMatterEndNewline();
      MatterCmd.SplitMatterIsDefault("---\nL1\nL2\n");
    }
    assert MatterCmd.SplitMatter("---\nL1\nL2\nL3\n---") == Parts("L1\nL2\nL3\n", "") by {
      ClosedBare();
      MatterCmd.SplitMatterIsDefault("---\nL1\nL2\nL3\n---");
    }
    assert MatterCmd.SplitMatter("---\nL1\nL2\nL3\n---\n") == Parts("L1\nL2\nL3\n", "") by {
      ClosedNoContent();
      MatterCmd.SplitMatterIsDefault("---\nL1\nL2\nL3\n---\n");
    }
    assert MatterCmd.SplitMatter("---\nL1\nL2\nL3\n---\nDATA") == Parts("L1\nL2\nL3\n", "DATA") by {
      ClosedContent();
      MatterCmd.SplitMatterIsDefault("---\nL1\nL2\nL3\n---\nDATA");
    }
    assert MatterCmd.SplitMatter("---\nL1\nL2\nL3\n---\nDATA\n") == Parts("L1\nL2\nL3\n", "DATA\n") by {
      ClosedContentNewline();
      MatterCmd.SplitMatterIsDefault("---\nL1\nL2\nL3\n---\nDATA\n");
    }
  }

  /** The top-level program's test table, every row, from the library's behaviour on
      the default splitter. */
  lemma ProgramTable()
    ensures MatterMain.SplitMatter("") == MatterMain.Split("", "")
    ensures MatterMain.SplitMatter("-") == MatterMain.Split("", "-")
    ensures MatterMain.SplitMatter("--") == MatterMain.Split("", "--")
    ensures MatterMain.SplitMatter("---") == MatterMain.Split("", "---")
    ensures MatterMain.SplitMatter("---\n") == MatterMain.Split("", "")
    ensures MatterMain.SplitMatter("---\n---") == MatterMain.Split("", "")
    ensures MatterMain.SplitMatter("---\n---\n") == MatterMain.Split("", "")
    ensures MatterMain.SplitMatter("---\nL1\nL2") == MatterMain.Split("L1\nL2", "")
    ensures MatterMain.SplitMatter("---\nL1\nL2\n") == MatterMain.Split("L1\nL2\n", "")
    ensures MatterMain.SplitMatter("---\nL1\nL2\nL3\n---") == MatterMain.Split("L1\nL2\nL3\n", "")
    ensures MatterMain.SplitMatter("---\nL1\nL2\nL3\n---\n") == MatterMain.Split("L1\nL2\nL3\n", "")
    ensures MatterMain.SplitMatter("---\nL1\nL2\nL3\n---\nDATA") == MatterMain.Split("L1\nL2\nL3\n", "DATA")
    ensures MatterMain.SplitMatter("---\nL1\nL2\nL3\n---\nDATA\n") == MatterMain.Split("L1\nL2\nL3\n", "DATA\n")
  {
    CommandTable();
    MatterMain.SplitMatterAgrees("");
    MatterMain.SplitMatterAgrees("-");
    MatterMain.SplitMatterAgrees("--");
    MatterMain.SplitMatterAgrees("---");
    MatterMain.SplitMatterAgrees("---\n");
    MatterMain.SplitMatterAgrees("---\n---");
    MatterMain.SplitMatterAgrees("---\n---\n");
    MatterMain.SplitMatterAgrees("---\nL1\nL2");
    MatterMain.SplitMatterAgrees("---\nL1\nL2\n");
    MatterMain.SplitMatterAgrees("---\nL1\nL2\nL3\n---");
    MatterMain.SplitMatterAgrees("---\nL1\nL2\nL3\n---\n");
    MatterMain.SplitMatterAgrees("---\nL1\nL2\nL3\n---\nDATA");
    MatterMain.SplitMatterAgrees("---\nL1\nL2\nL3\n---\nDATA\n");
  }
}
