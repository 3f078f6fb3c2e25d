/** Byte sequences and Go's `bufio.Reader.ReadBytes('\n')`, the only way the
    splitter looks at its input after the opening probe.

    A `char` stands for one octet: the splitter only compares octets for
    equality and searches for the newline octet, so nothing depends on the
    octet range. */
module Lines {

  type Byte = char
  type Bytes = seq<Byte>

  const Newline: Byte := '\n'

  /** A non-empty line whose only newline, if any, is its last byte. */
  predicate Shaped(l: Bytes) {
    |l| > 0 && Newline !in l[..|l| - 1]
  }

  /** A line that `ReadBytes` returns without an error: it ends in its newline. */
  predicate Complete(l: Bytes) {
    Shaped(l) && l[|l| - 1] == Newline
  }

  /** What one `ReadBytes('\n')` call yields: the line, the unread remainder,
      and whether the call reported `io.EOF` (no newline was found). */
  datatype Read = Read(line: Bytes, rest: Bytes, eof: bool)

  /** `ReadBytes('\n')` on a stream holding `r`: everything up to and
      including the first newline, or all of `r` with `io.EOF` when `r` holds
      no newline. */
  function NextLine(r: Bytes): (rd: Read)
    ensures rd.line + rd.rest == r
    ensures rd.eof <==> Newline !in r
    ensures rd.eof ==> rd.rest == []
    ensures r != [] ==> Shaped(rd.line)
    ensures !rd.eof ==> Complete(rd.line)
    decreases |r|
  {
    if r == [] then Read([], [], true)
    else if r[0] == Newline then Read([Newline], r[1..], false)
    else
      var rd := NextLine(r[1..]);
      assert ([r[0]] + rd.line)[1..] == rd.line;
      Read([r[0]] + rd.line, rd.rest, rd.eof)
  }

  /** Concatenation of a list of lines, as the splitter appends them. */
  function Concat(ls: seq<Bytes>): Bytes {
    if ls == [] then [] else ls[0] + Concat(ls[1..])
  }

  /** The input cut into the lines successive `ReadBytes` calls return,
      without the empty line that the final call at end of input yields. */
  function LinesOf(r: Bytes): (ls: seq<Bytes>)
    decreases |r|
  {
    if r == [] then []
    else
      var rd := NextLine(r);
      [rd.line] + LinesOf(rd.rest)
  }

  /** Every line of `ls` is shaped and every line but the last ends in a newline:
      the lists that `LinesOf` produces. */
  predicate LineList(ls: seq<Bytes>) {
    && (forall i :: 0 <= i < |ls| ==> Shaped(ls[i]))
    && (forall i :: 0 <= i < |ls| - 1 ==> Complete(ls[i]))
  }

  /** Lines as successive `ReadBytes` calls return them: every line but the
      last ends in its only newline, and the last either does too or, cut
      off by end of input, holds no newline at all (it may be empty). */
  predicate Whole(ls: seq<Bytes>) {
    && (forall i :: 0 <= i < |ls| - 1 ==> Complete(ls[i]))
    && (ls != [] ==> Complete(ls[|ls| - 1]) || Newline !in ls[|ls| - 1])
  }

  // Sequence identities at a generic element type, so that the solver does
  // not compare the lines element by element.

  lemma AppendNil<T>(a: seq<T>)
    ensures a + [] == a
  {
  }

  lemma AppendAssoc<T>(a: seq<T>, b: seq<T>, c: seq<T>)
    ensures a + b + c == a + (b + c)
  {
  }

  lemma ConsAppend<T>(x: T, a: seq<T>, b: seq<T>)
    ensures [x] + (a + b) == ([x] + a) + b
  {
  }

  lemma TailCons<T>(x: T, a: seq<T>)
    ensures ([x] + a)[1..] == a
  {
  }

  lemma TakeCons<T>(x: T, a: seq<T>, k: nat)
    requires k <= |a|
    ensures ([x] + a)[..k + 1] == [x] + a[..k]
  {
  }

  lemma DropCons<T>(x: T, a: seq<T>, k: nat)
    requires k < |a|
    ensures ([x] + a)[k + 2..] == a[k + 1..]
  {
  }

  lemma TakeAll<T>(a: seq<T>)
    ensures a[..|a|] == a
  {
  }

  lemma ConcatCons(l: Bytes, ls: seq<Bytes>)
    ensures Concat([l] + ls) == l + Concat(ls)
  {
    assert ([l] + ls)[1..] == ls;
  }

  lemma {:induction false} ConcatAppend(ls: seq<Bytes>, ms: seq<Bytes>)
    ensures Concat(ls + ms) == Concat(ls) + Concat(ms)
    decreases |ls|
  {
    if ls == [] {
      assert ls + ms == ms;
    } else {
      assert ls + ms == [ls[0]] + (ls[1..] + ms);
      assert ls == [ls[0]] + ls[1..];
      ConcatCons(ls[0], ls[1..] + ms);
      ConcatAppend(ls[1..], ms);
      ConcatCons(ls[0], ls[1..]);
    }
  }

  /** Joining the lines of `r` gives `r` back, byte for byte. */
  lemma {:induction false} LinesRoundTrip(r: Bytes)
    ensures Concat(LinesOf(r)) == r
    ensures LineList(LinesOf(r))
    decreases |r|
  {
    if r != [] {
      var rd := NextLine(r);
      LinesRoundTrip(rd.rest);
      ConcatCons(rd.line, LinesOf(rd.rest));
      if rd.eof {
        assert LinesOf(rd.rest) == [];
      }
    }
  }

  /** Reading a complete line off the front of a stream returns that line and
      leaves the rest untouched. */
  lemma {:induction false} NextLineOfComplete(l: Bytes, t: Bytes)
    requires Complete(l)
    ensures NextLine(l + t) == Read(l, t, false)
    decreases |l|
  {
    if |l| == 1 {
      assert (l + t)[1..] == t;
    } else {
      assert l[0] in l[..|l| - 1];
      assert l[1..][..|l| - 2] == l[1..|l| - 1];
      assert (l + t)[1..] == l[1..] + t;
      NextLineOfComplete(l[1..], t);
      assert [l[0]] + l[1..] == l;
    }
  }

  /** The other direction of the round trip: cutting a joined line list into
      lines gives back the same list. */
  lemma {:induction false} LinesOfConcat(ls: seq<Bytes>)
    requires LineList(ls)
    ensures LinesOf(Concat(ls)) == ls
    decreases |ls|
  {
    if ls != [] {
      ConcatCons(ls[0], ls[1..]);
      assert [ls[0]] + ls[1..] == ls;
      if |ls| == 1 {
        assert Concat(ls[1..]) == [];
        assert ls[0] == ls[0][..|ls[0]| - 1] + [ls[0][|ls[0]| - 1]];
        if ls[0][|ls[0]| - 1] == Newline {
          NextLineOfComplete(ls[0], []);
          assert ls[0] + [] == ls[0];
        } else {
          assert Newline !in ls[0];
          assert Concat(ls) == ls[0];
          assert NextLine(ls[0]).line == ls[0];
        }
      } else {
        NextLineOfComplete(ls[0], Concat(ls[1..]));
        assert LineList(ls[1..]) by {
          forall i | 0 <= i < |ls[1..]| ensures Shaped(ls[1..][i]) {
            assert ls[1..][i] == ls[i + 1];
          }
          forall i | 0 <= i < |ls[1..]| - 1 ensures Complete(ls[1..][i]) {
            assert ls[1..][i] == ls[i + 1];
          }
        }
        LinesOfConcat(ls[1..]);
      }
    }
  }

  /** Cutting a joined list of whole lines into lines gives back lines of the
      list (all of them but a final empty one). */
  lemma {:induction false} LinesOfWhole(ls: seq<Bytes>)
    requires Whole(ls)
    ensures forall i :: 0 <= i < |LinesOf(Concat(ls))| ==> LinesOf(Concat(ls))[i] in ls
    decreases |ls|
  {
    if ls != [] {
      var l, more := ls[0], ls[1..];
      ConcatCons(l, more);
      assert [l] + more == ls;
      if |ls| == 1 {
        assert Concat(more) == [];
        assert l + [] == l;
        if l != [] {
          if Complete(l) {
            NextLineOfComplete(l, []);
          } else {
            assert NextLine(l).line == l;
          }
          assert LinesOf(l) == [l] + LinesOf([]);
        }
      } else {
        assert Complete(l);
        NextLineOfComplete(l, Concat(more));
        assert LinesOf(Concat(ls)) == [l] + LinesOf(Concat(more));
        assert Whole(more) by {
          forall i | 0 <= i < |more| - 1 ensures Complete(more[i]) {
            assert more[i] == ls[i + 1];
          }
          assert more[|more| - 1] == ls[|ls| - 1];
        }
        LinesOfWhole(more);
        forall i | 0 <= i < |LinesOf(Concat(ls))| ensures LinesOf(Concat(ls))[i] in ls {
          if i > 0 {
            assert LinesOf(Concat(ls))[i] == LinesOf(Concat(more))[i - 1];
            assert forall x :: x in more ==> x in ls;
          }
        }
      }
    }
  }

  /** A list whose last line ends in a newline joins into bytes that end in one. */
  lemma ConcatEndsInNewline(ls: seq<Bytes>)
    requires ls != [] && Complete(ls[|ls| - 1])
    ensures var c := Concat(ls); |c| > 0 && c[|c| - 1] == Newline
  {
    var n := |ls| - 1;
    assert ls == ls[..n] + [ls[n]];
    ConcatAppend(ls[..n], [ls[n]]);
    ConcatCons(ls[n], []);
    assert ls[n] + [] == ls[n];
  }
}
