/**
 * The prefixing writer of the integration-test harness: it wraps another
 * writer and emits a fixed prefix before every line of what is written to it.
 * The bytes written are cut after each newline; each non-empty piece is sent
 * to the wrapped writer preceded by the prefix, and the count returned is of
 * the piece bytes only.
 */
module Prefixing {
  import opened Wrappers

  newtype byte = x: int | 0 <= x < 256

  const Newline: byte := 10

  /** The error a writer reports when it could take only part of a write. */
  const ShortWrite := "short write"

  // Lines.

  /** `s` holds no newline before its last byte. */
  predicate OneLine(s: seq<byte>) {
    forall i :: 0 <= i < |s| - 1 ==> s[i] != Newline
  }

  /** `s` ends with a newline. */
  predicate EndsLine(s: seq<byte>) {
    |s| > 0 && s[|s| - 1] == Newline
  }

  /** Pieces as a split after newlines leaves them: a newline only at a piece's end, and at the end of every piece but the last. */
  predicate Lines(segs: seq<seq<byte>>) {
    && (forall i :: 0 <= i < |segs| ==> OneLine(segs[i]))
    && (forall i :: 0 <= i < |segs| - 1 ==> EndsLine(segs[i]))
  }

  function Flatten(segs: seq<seq<byte>>): seq<byte> {
    if segs == [] then [] else segs[0] + Flatten(segs[1..])
  }

  /** The number of newlines in `p`. */
  function NewlineCount(p: seq<byte>): nat {
    if p == [] then 0 else (if p[0] == Newline then 1 else 0) + NewlineCount(p[1..])
  }

  /** The length of the first line of `p`: up to and including its first newline, or all of `p` when it has none. */
  function LineEnd(p: seq<byte>): (k: nat)
    ensures k <= |p|
    ensures p != [] ==> k > 0
    ensures OneLine(p[..k])
    ensures k == |p| || EndsLine(p[..k])
  {
    if p == [] then 0
    else if p[0] == Newline then 1
    else
      var k := 1 + LineEnd(p[1..]);
      assert p[..k] == [p[0]] + p[1..][..k - 1];
      k
  }

  /**
   * The pieces of `p` cut after each newline: they concatenate back to `p`,
   * every piece but the last ends with its only newline, and the last holds
   * none (it is empty when `p` is empty or ends with a newline).
   */
  function SplitAfter(p: seq<byte>): (segs: seq<seq<byte>>)
    ensures |segs| >= 1
    ensures Flatten(segs) == p
    ensures Lines(segs)
    ensures !EndsLine(segs[|segs| - 1])
    decreases |p|
  {
    var k := LineEnd(p);
    if k == |p| && !EndsLine(p) then
      SplitOne(p);
      [p]
    else
      var rest := SplitAfter(p[k..]);
      SplitCons(p, rest);
      [p[..k]] + rest
  }

  lemma {:induction false} SplitOne(p: seq<byte>)
    requires LineEnd(p) == |p| && !EndsLine(p)
    ensures Flatten([p]) == p && Lines([p])
  {
    assert p[..LineEnd(p)] == p;
    assert [p][1..] == [];
  }

  lemma {:induction false} SplitCons(p: seq<byte>, rest: seq<seq<byte>>)
    requires LineEnd(p) < |p| || EndsLine(p)
    requires |rest| >= 1 && Flatten(rest) == p[LineEnd(p)..] && Lines(rest) && !EndsLine(rest[|rest| - 1])
    ensures var segs := [p[..LineEnd(p)]] + rest;
      Flatten(segs) == p && Lines(segs) && !EndsLine(segs[|segs| - 1])
  {
    var k := LineEnd(p);
    assert p[..k] + p[k..] == p;
    LinesCons(p[..k], rest);
  }

  /** A whole line put before pieces as a split leaves them gives such pieces again, with the same last one. */
  lemma {:induction false} LinesCons(a: seq<byte>, rest: seq<seq<byte>>)
    requires OneLine(a) && EndsLine(a) && Lines(rest) && |rest| >= 1
    ensures Lines([a] + rest)
    ensures Flatten([a] + rest) == a + Flatten(rest)
    ensures ([a] + rest)[|rest|] == rest[|rest| - 1]
  {
    var segs := [a] + rest;
    assert segs[1..] == rest;
    assert forall i :: 1 <= i < |segs| ==> segs[i] == rest[i - 1];
  }

  /** The number of non-empty pieces. */
  function NonEmpty(segs: seq<seq<byte>>): nat {
    if segs == [] then 0 else (if segs[0] != [] then 1 else 0) + NonEmpty(segs[1..])
  }

  // The framed stream.

  /** One piece as the wrapped writer receives it: the prefix, unless the piece is empty, then the piece. */
  function Frame(prefix: seq<byte>, line: seq<byte>): seq<byte> {
    (if line == [] then [] else prefix) + line
  }

  /** All the pieces, each framed. */
  function Framed(prefix: seq<byte>, segs: seq<seq<byte>>): seq<byte> {
    if segs == [] then [] else Frame(prefix, segs[0]) + Framed(prefix, segs[1..])
  }

  /**
   * Reads a framed stream back: drops a prefix, keeps the line that follows
   * it, and goes on after that line; a trailing prefix (or part of one) with
   * nothing after it gives nothing.
   */
  function Unframe(prefix: seq<byte>, s: seq<byte>): seq<byte>
    decreases |s|
  {
    if |s| <= |prefix| then []
    else
      var rest := s[|prefix|..];
      var k := LineEnd(rest);
      rest[..k] + Unframe(prefix, rest[k..])
  }

  // What a write does.

  /** The result of a write: the count it returns, its error, and the bytes the wrapped writer took. */
  datatype Outcome = Outcome(n: nat, err: Option<string>, out: seq<byte>)

  /**
   * Writing one more piece after the outcome `o`, to a writer that took
   * `|o.out|` of its `room` bytes: the prefix (unless the piece is empty) and
   * then the piece. A write larger than the room left takes what fits and
   * fails; a failed prefix ends it before the piece. The count grows by the
   * piece bytes taken, not the prefix bytes.
   */
  function Put(prefix: seq<byte>, o: Outcome, line: seq<byte>, room: nat): (r: Outcome)
    requires |o.out| <= room
    ensures |o.out| <= |r.out| <= room
    ensures r.out[..|o.out|] == o.out && r.n >= o.n
  {
    var left := room - |o.out|;
    if line != [] && |prefix| > left then Outcome(o.n, Some(ShortWrite), o.out + prefix[..left])
    else
      var out := o.out + (if line != [] then prefix else []);
      var left' := room - |out|;
      if |line| > left' then Outcome(o.n + left', Some(ShortWrite), out + line[..left'])
      else Outcome(o.n + |line|, None, out + line)
  }

  /** Writing the pieces `segs` in order, the first failure ending it. */
  function Emit(prefix: seq<byte>, segs: seq<seq<byte>>, room: nat): (o: Outcome)
    ensures |o.out| <= room
    decreases |segs|
  {
    if segs == [] then Outcome(0, None, [])
    else
      var o := Emit(prefix, segs[..|segs| - 1], room);
      if o.err.Some? then o else Put(prefix, o, segs[|segs| - 1], room)
  }

  // Properties of the pieces and the framed stream.

  lemma {:induction false} FlattenSnoc(segs: seq<seq<byte>>, s: seq<byte>)
    ensures Flatten(segs + [s]) == Flatten(segs) + s
    decreases |segs|
  {
    if segs == [] {
      assert [s][1..] == [];
    } else {
      assert (segs + [s])[1..] == segs[1..] + [s];
      FlattenSnoc(segs[1..], s);
    }
  }

  lemma {:induction false} FramedSnoc(prefix: seq<byte>, segs: seq<seq<byte>>, s: seq<byte>)
    ensures Framed(prefix, segs + [s]) == Framed(prefix, segs) + Frame(prefix, s)
    decreases |segs|
  {
    if segs == [] {
      assert [s][1..] == [];
    } else {
      assert (segs + [s])[1..] == segs[1..] + [s];
      FramedSnoc(prefix, segs[1..], s);
    }
  }

  /** The framed stream is the pieces' bytes plus one prefix per non-empty piece. */
  lemma {:induction false} FramedLength(prefix: seq<byte>, segs: seq<seq<byte>>)
    ensures |Framed(prefix, segs)| == |Flatten(segs)| + |prefix| * NonEmpty(segs)
    decreases |segs|
  {
    if segs != [] {
      FramedLength(prefix, segs[1..]);
      var e := if segs[0] != [] then 1 else 0;
      assert NonEmpty(segs) == e + NonEmpty(segs[1..]);
      assert |Frame(prefix, segs[0])| == |segs[0]| + |prefix| * e;
      assert |prefix| * (e + NonEmpty(segs[1..])) == |prefix| * e + |prefix| * NonEmpty(segs[1..]);
    }
  }

  /**
   * One prefix is written per line of the input: one per newline, and one
   * more for a last line that does not end with a newline. The first line
   * gets one too; an empty input, or the empty piece after a final newline,
   * gets none.
   */
  lemma {:induction false} PrefixesPerLine(p: seq<byte>)
    ensures NonEmpty(SplitAfter(p)) == NewlineCount(p) + (if p != [] && p[|p| - 1] != Newline then 1 else 0)
    decreases |p|
  {
    var k := LineEnd(p);
    if k == |p| && !EndsLine(p) {
      assert p[..k] == p;
      NoNewline(p);
    } else {
      SplitAfterStep(p);
      NewlineCountLine(p);
      PrefixesPerLine(p[k..]);
      if p[k..] != [] {
        assert p[|p| - 1] == p[k..][|p[k..]| - 1];
      }
    }
  }

  /** When `p` holds a newline, its pieces are its first line, which is not empty, then the pieces of the rest. */
  lemma {:induction false} SplitAfterStep(p: seq<byte>)
    requires LineEnd(p) < |p| || EndsLine(p)
    ensures NonEmpty(SplitAfter(p)) == 1 + NonEmpty(SplitAfter(p[LineEnd(p)..]))
  {
    var segs := SplitAfter(p);
    assert segs[0] == p[..LineEnd(p)];
    assert segs[1..] == SplitAfter(p[LineEnd(p)..]);
  }

  /** The first line of `p`, when it ends with a newline, holds exactly one. */
  lemma {:induction false} NewlineCountLine(p: seq<byte>)
    requires LineEnd(p) < |p| || EndsLine(p)
    ensures NewlineCount(p) == 1 + NewlineCount(p[LineEnd(p)..])
  {
    var k := LineEnd(p);
    assert EndsLine(p[..k]);
    NewlineCountSplit(p[..k], p[k..]);
    assert p[..k] + p[k..] == p;
    var a := p[..k - 1];
    assert forall i :: 0 <= i < |a| ==> a[i] == p[..k][i];
    NoNewline(a);
    assert p[..k] == a + [Newline];
    NewlineCountSplit(a, [Newline]);
    assert NewlineCount([Newline]) == 1;
  }

  /** A line with no newline before its last byte, when it does not end with one, has none at all. */
  lemma {:induction false} NoNewline(p: seq<byte>)
    requires OneLine(p) && !EndsLine(p)
    ensures NewlineCount(p) == 0
    decreases |p|
  {
    if p != [] {
      assert p[0] != Newline;
      var q := p[1..];
      if q != [] {
        assert q[|q| - 1] == p[|p| - 1];
      }
      NoNewline(q);
    }
  }

  lemma {:induction false} NewlineCountSplit(a: seq<byte>, b: seq<byte>)
    ensures NewlineCount(a + b) == NewlineCount(a) + NewlineCount(b)
    decreases |a|
  {
    if a == [] {
      assert a + b == b;
    } else {
      assert (a + b)[0] == a[0];
      assert (a + b)[1..] == a[1..] + b;
      NewlineCountSplit(a[1..], b);
    }
  }

  /** The first line of a line followed by anything is that line. */
  lemma {:induction false} LineEndOf(line: seq<byte>, x: seq<byte>)
    requires OneLine(line) && EndsLine(line)
    ensures LineEnd(line + x) == |line|
    decreases |line|
  {
    if |line| > 1 {
      assert (line + x)[1..] == line[1..] + x;
      LineEndOf(line[1..], x);
    }
  }

  /** Reading back one framed whole line followed by more gives the line, then the reading of the rest. */
  lemma {:induction false} UnframeLine(prefix: seq<byte>, line: seq<byte>, f: seq<byte>, c: seq<byte>, t: seq<byte>)
    requires OneLine(line) && EndsLine(line)
    requires Unframe(prefix, f + t) == c + Unframe(prefix, t)
    ensures Unframe(prefix, ((prefix + line) + f) + t) == (line + c) + Unframe(prefix, t)
  {
    var x := f + t;
    var s := ((prefix + line) + f) + t;
    Regroup(prefix, line, f, t, s);
    UnframeFirst(prefix, line, x, s);
    Reassociate(line, c, Unframe(prefix, t), Unframe(prefix, s));
  }

  // Regroup and Reassociate only re-bracket concatenations. They stand alone so
  // that UnframeLine's proof meets each equation as a lemma's postcondition
  // instead of as a sequence-equality goal in its own, larger context.

  lemma Regroup(a: seq<byte>, b: seq<byte>, c: seq<byte>, d: seq<byte>, s: seq<byte>)
    requires s == ((a + b) + c) + d
    ensures s == a + (b + (c + d))
  {
  }

  lemma Reassociate(a: seq<byte>, b: seq<byte>, c: seq<byte>, s: seq<byte>)
    requires s == a + (b + c)
    ensures s == (a + b) + c
  {
  }

  /** Reading back a stream that starts with the prefix and a whole line gives that line, then the reading of the rest. */
  lemma {:induction false} UnframeFirst(prefix: seq<byte>, line: seq<byte>, x: seq<byte>, s: seq<byte>)
    requires OneLine(line) && EndsLine(line)
    requires s == prefix + (line + x)
    ensures Unframe(prefix, s) == line + Unframe(prefix, x)
  {
    assert s[|prefix|..] == line + x;
    LineEndOf(line, x);
    assert (line + x)[..|line|] == line;
    assert (line + x)[|line|..] == x;
  }

  /** Reading back the stream after whole framed lines gives those lines, then the reading of the rest. */
  lemma {:induction false} UnframeAfter(prefix: seq<byte>, segs: seq<seq<byte>>, t: seq<byte>)
    requires forall i :: 0 <= i < |segs| ==> OneLine(segs[i]) && EndsLine(segs[i])
    ensures Unframe(prefix, Framed(prefix, segs) + t) == Flatten(segs) + Unframe(prefix, t)
    decreases |segs|
  {
    if segs == [] {
      assert Framed(prefix, segs) + t == t;
      assert Flatten(segs) + Unframe(prefix, t) == Unframe(prefix, t);
    } else {
      var more := segs[1..];
      assert forall i :: 0 <= i < |more| ==> more[i] == segs[i + 1];
      UnframeAfter(prefix, more, t);
      assert Framed(prefix, segs) == (prefix + segs[0]) + Framed(prefix, more);
      UnframeLine(prefix, segs[0], Framed(prefix, more), Flatten(more), t);
    }
  }

  /** Reading back the first `j` bytes of one framed line gives the part of the line among them. */
  lemma {:induction false} UnframeOne(prefix: seq<byte>, line: seq<byte>, j: nat)
    requires line != [] && OneLine(line)
    requires j <= |prefix| + |line|
    ensures Unframe(prefix, Frame(prefix, line)[..j]) == if j <= |prefix| then [] else line[..j - |prefix|]
  {
    var s := Frame(prefix, line)[..j];
    if j > |prefix| {
      var r := line[..j - |prefix|];
      assert s[|prefix|..] == r;
      var k := LineEnd(r);
      assert forall i :: 0 <= i < |r| - 1 ==> r[i] != Newline;
      assert k == |r|;
      assert r[..k] == r;
      assert r[k..] == [];
    }
  }

  /** Reading back the framed stream gives exactly the pieces' bytes: the prefixes are all that was added. */
  lemma {:induction false} UnframeFramed(prefix: seq<byte>, segs: seq<seq<byte>>)
    requires Lines(segs)
    ensures Unframe(prefix, Framed(prefix, segs)) == Flatten(segs)
  {
    if segs != [] {
      var init := segs[..|segs| - 1];
      var line := segs[|segs| - 1];
      assert segs == init + [line];
      FramedSnoc(prefix, init, line);
      FlattenSnoc(init, line);
      UnframeAfter(prefix, init, Frame(prefix, line));
      if line != [] {
        UnframeOne(prefix, line, |Frame(prefix, line)|);
        assert Frame(prefix, line)[..|Frame(prefix, line)|] == Frame(prefix, line);
      }
    }
  }

  /** Deleting the prefixes from what the wrapped writer receives gives back exactly the bytes written. */
  lemma {:induction false} UnframeRoundTrip(prefix: seq<byte>, p: seq<byte>)
    ensures Unframe(prefix, Framed(prefix, SplitAfter(p))) == p
  {
    UnframeFramed(prefix, SplitAfter(p));
  }

  /** A non-empty write starts with the prefix: the first line gets one too. */
  lemma {:induction false} FramedStartsWithPrefix(prefix: seq<byte>, p: seq<byte>)
    requires p != []
    ensures |Framed(prefix, SplitAfter(p))| >= |prefix|
    ensures Framed(prefix, SplitAfter(p))[..|prefix|] == prefix
  {
    var segs := SplitAfter(p);
    if |segs| > 1 {
      assert EndsLine(segs[0]);
    } else {
      assert Flatten(segs) == segs[0] + Flatten(segs[1..]);
    }
    assert Framed(prefix, segs) == prefix + (segs[0] + Framed(prefix, segs[1..]));
  }

  // Properties of a write.

  /**
   * One more piece, after pieces that were all taken: the wrapped writer
   * takes its framing up to the room left, the count grows by the piece bytes
   * among them, and the write fails exactly when the framing does not fit.
   */
  lemma {:induction false} EmitStep(prefix: seq<byte>, segs: seq<seq<byte>>, room: nat)
    requires segs != []
    requires Emit(prefix, segs[..|segs| - 1], room).err.None?
    ensures var o := Emit(prefix, segs[..|segs| - 1], room);
      var r := Emit(prefix, segs, room);
      var fr := Frame(prefix, segs[|segs| - 1]);
      var j := if |fr| <= room - |o.out| then |fr| else room - |o.out|;
      && r.out == o.out + fr[..j]
      && r.n == o.n + (if j <= |fr| - |segs[|segs| - 1]| then 0 else j - (|fr| - |segs[|segs| - 1]|))
      && (r.err.None? <==> |fr| <= room - |o.out|)
      && (r.err.Some? ==> r.err == Some(ShortWrite))
  {
    var o := Emit(prefix, segs[..|segs| - 1], room);
    var line := segs[|segs| - 1];
    var left := room - |o.out|;
    var fr := Frame(prefix, line);
    if line == [] {
      assert fr == [];
      assert o.out + [] == o.out;
    } else if |prefix| > left {
      assert fr[..left] == prefix[..left];
    } else if |line| > left - |prefix| {
      assert fr[..left] == prefix + line[..left - |prefix|];
    } else {
      assert fr[..|fr|] == prefix + line;
    }
  }

  /**
   * The wrapped writer receives the framed stream cut at its room: all of it,
   * with no error, when it fits, and otherwise exactly as much as fits, with
   * the short-write error.
   */
  lemma {:induction false} EmitCut(prefix: seq<byte>, segs: seq<seq<byte>>, room: nat)
    ensures var o := Emit(prefix, segs, room);
      var f := Framed(prefix, segs);
      && (o.err.None? <==> |f| <= room)
      && (o.err.Some? ==> o.err == Some(ShortWrite))
      && o.out == (if |f| <= room then f else f[..room])
    decreases |segs|
  {
    if segs != [] {
      var init := segs[..|segs| - 1];
      var line := segs[|segs| - 1];
      assert segs == init + [line];
      FramedSnoc(prefix, init, line);
      EmitCut(prefix, init, room);
      var f0 := Framed(prefix, init);
      var fr := Frame(prefix, line);
      assert Framed(prefix, segs) == f0 + fr;
      var o := Emit(prefix, init, room);
      if o.err.Some? {
        assert (f0 + fr)[..room] == f0[..room];
      } else {
        EmitStep(prefix, segs, room);
        var j := if |fr| <= room - |f0| then |fr| else room - |f0|;
        assert (f0 + fr)[..|f0| + j] == f0 + fr[..j];
        assert fr[..|fr|] == fr;
      }
    }
  }

  /** A write that reports no error counts every byte of the input. */
  lemma {:induction false} EmitCountsAll(prefix: seq<byte>, segs: seq<seq<byte>>, room: nat)
    ensures var o := Emit(prefix, segs, room);
      o.err.None? ==> o.n == |Flatten(segs)|
    decreases |segs|
  {
    if segs != [] {
      var init := segs[..|segs| - 1];
      var line := segs[|segs| - 1];
      assert segs == init + [line];
      FlattenSnoc(init, line);
      var o := Emit(prefix, init, room);
      if o.err.None? {
        EmitCountsAll(prefix, init, room);
        EmitStep(prefix, segs, room);
      }
    }
  }

  /**
   * Reading back whole framed lines followed by the first `j` bytes of one
   * more framed line gives those lines and the part of the last one among the
   * `j` bytes.
   */
  lemma {:induction false} UnframeCut(prefix: seq<byte>, segs: seq<seq<byte>>, j: nat)
    requires Lines(segs) && segs != []
    requires j <= |Frame(prefix, segs[|segs| - 1])|
    ensures var init := segs[..|segs| - 1];
      var line := segs[|segs| - 1];
      var d := if j <= |Frame(prefix, line)| - |line| then 0 else j - (|Frame(prefix, line)| - |line|);
      Unframe(prefix, Framed(prefix, init) + Frame(prefix, line)[..j]) == Flatten(init) + line[..d]
  {
    var init := segs[..|segs| - 1];
    var line := segs[|segs| - 1];
    var fr := Frame(prefix, line);
    UnframeAfter(prefix, init, fr[..j]);
    if line == [] {
      assert fr[..j] == [];
    } else {
      UnframeOne(prefix, line, j);
    }
  }

  /**
   * One more piece, after pieces that were all taken, in terms of what was
   * taken: the framed earlier pieces, then the framing of this one up to the
   * room left; the count is that of every earlier byte plus the piece bytes
   * taken.
   */
  lemma {:induction false} EmitAfterAll(prefix: seq<byte>, segs: seq<seq<byte>>, room: nat)
    requires segs != []
    requires Emit(prefix, segs[..|segs| - 1], room).err.None?
    ensures var init := segs[..|segs| - 1];
      var line := segs[|segs| - 1];
      var r := Emit(prefix, segs, room);
      var fr := Frame(prefix, line);
      var j := if |fr| <= room - |Framed(prefix, init)| then |fr| else room - |Framed(prefix, init)|;
      && |Framed(prefix, init)| <= room
      && r.out == Framed(prefix, init) + fr[..j]
      && r.n == |Flatten(init)| + (if j <= |fr| - |line| then 0 else j - (|fr| - |line|))
  {
    var init := segs[..|segs| - 1];
    EmitCut(prefix, init, room);
    EmitCountsAll(prefix, init, room);
    EmitStep(prefix, segs, room);
  }

  /** The count after one more piece, when the pieces before it were all taken. */
  lemma {:induction false} EmitCountStep(prefix: seq<byte>, segs: seq<seq<byte>>, room: nat)
    requires Lines(segs) && segs != []
    requires Emit(prefix, segs[..|segs| - 1], room).err.None?
    ensures var r := Emit(prefix, segs, room);
      r.n <= |Flatten(segs)| && Unframe(prefix, r.out) == Flatten(segs)[..r.n]
  {
    var init := segs[..|segs| - 1];
    var line := segs[|segs| - 1];
    EmitAfterAll(prefix, segs, room);
    FlattenLast(segs);
    var fr := Frame(prefix, line);
    var j := if |fr| <= room - |Framed(prefix, init)| then |fr| else room - |Framed(prefix, init)|;
    var d := if j <= |fr| - |line| then 0 else j - (|fr| - |line|);
    UnframeCut(prefix, segs, j);
    var r := Emit(prefix, segs, room);
    assert r.out == Framed(prefix, init) + fr[..j];
    assert Unframe(prefix, r.out) == Flatten(init) + line[..d];
    TakeAfter(Flatten(segs), Flatten(init), line, r.n, d);
  }

  lemma {:induction false} FlattenLast(segs: seq<seq<byte>>)
    requires segs != []
    ensures Flatten(segs) == Flatten(segs[..|segs| - 1]) + segs[|segs| - 1]
  {
    assert segs == segs[..|segs| - 1] + [segs[|segs| - 1]];
    FlattenSnoc(segs[..|segs| - 1], segs[|segs| - 1]);
  }

  lemma {:induction false} TakeAfter(s: seq<byte>, a: seq<byte>, b: seq<byte>, n: nat, d: nat)
    requires s == a + b && d <= |b| && n == |a| + d
    ensures s[..n] == a + b[..d]
  {
    assert forall i :: 0 <= i < |a| + d ==> (a + b)[i] == (a + b[..d])[i];
  }

  /**
   * The count a write returns is the number of bytes of the input that the
   * wrapped writer received: reading back what it received gives exactly the
   * first `n` bytes of the input. In particular a prefix that fails adds
   * nothing to the count, and a line that fails adds the part of it that was
   * taken.
   */
  lemma {:induction false} EmitCount(prefix: seq<byte>, segs: seq<seq<byte>>, room: nat)
    requires Lines(segs)
    ensures var o := Emit(prefix, segs, room);
      o.n <= |Flatten(segs)| && Unframe(prefix, o.out) == Flatten(segs)[..o.n]
    decreases |segs|
  {
    if segs != [] {
      var init := segs[..|segs| - 1];
      var line := segs[|segs| - 1];
      var o := Emit(prefix, init, room);
      if o.err.Some? {
        assert segs == init + [line];
        FlattenSnoc(init, line);
        assert Lines(init);
        EmitCount(prefix, init, room);
        var c0 := Flatten(init);
        assert Flatten(segs) == c0 + line;
        assert Emit(prefix, segs, room) == o;
        assert (c0 + line)[..o.n] == c0[..o.n];
      } else {
        EmitCountStep(prefix, segs, room);
      }
    }
  }

  /**
   * When the wrapped writer takes everything, a write reports no error and
   * returns the length of the input: prefix bytes are not counted.
   */
  lemma {:induction false} WriteAllCounted(prefix: seq<byte>, p: seq<byte>, room: nat)
    requires |Framed(prefix, SplitAfter(p))| <= room
    ensures var o := Emit(prefix, SplitAfter(p), room);
      o.err.None? && o.n == |p| && o.out == Framed(prefix, SplitAfter(p))
  {
    EmitCut(prefix, SplitAfter(p), room);
    EmitCount(prefix, SplitAfter(p), room);
    UnframeFramed(prefix, SplitAfter(p));
    var o := Emit(prefix, SplitAfter(p), room);
  }

  // The objects.

  /**
   * The wrapped writer: the bytes it has taken, and how many more it takes. A
   * write larger than that takes what fits and reports a short write.
   */
  class Sink {
    var data: seq<byte>
    var room: nat

    constructor (room: nat)
      ensures data == [] && this.room == room
    {
      data := [];
      this.room := room;
    }

    method Write(b: seq<byte>) returns (m: nat, err: Option<string>)
      modifies this
      ensures m == (if |b| <= old(room) then |b| else old(room))
      ensures err == (if |b| <= old(room) then None else Some(ShortWrite))
      ensures data == old(data) + b[..m]
      ensures room == old(room) - m
    {
      if |b| <= room {
        m, err := |b|, None;
      } else {
        m, err := room, Some(ShortWrite);
      }
      data := data + b[..m];
      room := room - m;
    }
  }

  /** A writer that puts a fixed prefix before every line it passes on to the writer it wraps. */
  class Prefixer {
    const writer: Sink
    const prefix: seq<byte>
    var anyOutput: bool

    constructor (writer: Sink, prefix: seq<byte>)
      ensures this.writer == writer && this.prefix == prefix && !anyOutput
    {
      this.writer := writer;
      this.prefix := prefix;
      anyOutput := false;
    }

    /**
     * Writes one piece after the outcome `o` of the pieces before it: the
     * prefix unless the piece is empty, then the piece, as Put describes;
     * `m` is the number of piece bytes the wrapped writer took.
     */
    method WritePiece(line: seq<byte>, ghost o: Outcome, ghost room: nat, ghost start: seq<byte>)
      returns (m: nat, err: Option<string>)
      requires |o.out| <= room
      requires writer.data == start + o.out && writer.room == room - |o.out|
      modifies writer
      ensures var r := Put(prefix, o, line, room);
        && o.n + m == r.n && err == r.err
        && writer.data == start + r.out && writer.room == room - |r.out|
    {
      if |line| > 0 {
        var _, e := writer.Write(prefix);
        if e.Some? {
          assert writer.data == start + (o.out + prefix[..room - |o.out|]);
          return 0, e;
        }
      }
      ghost var out := o.out + (if line != [] then prefix else []);
      assert writer.data == start + out;
      m, err := writer.Write(line);
      assert writer.data == start + (out + line[..m]);
      if err.None? {
        assert line[..m] == line;
      }
    }

    /**
     * Writes `p`: each piece of it cut after a newline, the non-empty ones
     * preceded by the prefix, stopping at the first failed write of the
     * wrapped writer. Returns the number of bytes of `p` passed on.
     */
    method Write(p: seq<byte>) returns (n: nat, err: Option<string>)
      modifies writer
      ensures var o := Emit(prefix, SplitAfter(p), old(writer.room));
        && n == o.n && err == o.err
        && writer.data == old(writer.data) + o.out
        && writer.room == old(writer.room) - |o.out|
    {
      ghost var room := writer.room;
      ghost var start := writer.data;
      var lines := SplitAfter(p);
      n, err := 0, None;
      assert lines[..0] == [];
      for i := 0 to |lines|
        invariant var o := Emit(prefix, lines[..i], room);
          && o.err.None? && n == o.n
          && writer.data == start + o.out && writer.room == room - |o.out|
        invariant err.None?
      {
        ghost var o := Emit(prefix, lines[..i], room);
        EmitNext(prefix, lines, room, i);
        var m;
        m, err := WritePiece(lines[i], o, room, start);
        n := n + m;
        if err.Some? {
          EmitStops(prefix, lines, room, i + 1);
          return;
        }
      }
      assert lines[..|lines|] == lines;
    }
  }

  /** After pieces that were all taken, the next one is written as Put says. */
  lemma {:induction false} EmitNext(prefix: seq<byte>, segs: seq<seq<byte>>, room: nat, k: nat)
    requires k < |segs|
    requires Emit(prefix, segs[..k], room).err.None?
    ensures Emit(prefix, segs[..k + 1], room) == Put(prefix, Emit(prefix, segs[..k], room), segs[k], room)
  {
    assert segs[..k + 1][..k] == segs[..k];
    assert segs[..k + 1][k] == segs[k];
  }

  /** Once a write of the first `k` pieces fails, the later pieces are never written. */
  lemma {:induction false} EmitStops(prefix: seq<byte>, segs: seq<seq<byte>>, room: nat, k: nat)
    requires k <= |segs|
    requires Emit(prefix, segs[..k], room).err.Some?
    ensures Emit(prefix, segs, room) == Emit(prefix, segs[..k], room)
    decreases |segs|
  {
    if k < |segs| {
      var init := segs[..|segs| - 1];
      assert init[..k] == segs[..k];
      EmitStops(prefix, init, room, k);
    } else {
      assert segs[..k] == segs;
    }
  }
}
