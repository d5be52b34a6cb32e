/**
 One file rewritten by several writers at once, without a lock: what they leave behind when their
 bytes are the same, and exactly when two of them can leave something that neither wrote.
 */
module SharedFile {
  import opened VolumeFs

  /** The byte at `i`; past the end a file reads as if it were extended with zeros. */
  function At(c: Bytes, i: nat): Byte {
    if i < |c| then c[i] else 0
  }

  /** The first `p` bytes of `data` are in place. */
  predicate Intact(c: Bytes, data: Bytes, p: nat) {
    p <= |data| && forall i | 0 <= i < p :: At(c, i) == data[i]
  }

  lemma OverwriteAt(c: Bytes, off: nat, b: Bytes)
    requires b != []
    ensures var t := Overwrite(c, off, b);
      && |t| == (if off + |b| < |c| then |c| else off + |b|)
      && forall i: nat :: At(t, i) == if off <= i < off + |b| then b[i - off] else At(c, i)
  {
  }

  lemma ResizeAt(c: Bytes, len: nat)
    ensures |Resize(c, len)| == len
    ensures forall i: nat :: At(Resize(c, len), i) == if i < len then At(c, i) else 0
  {
  }

  lemma SameBytes(c: Bytes, d: Bytes)
    requires |c| == |d| && forall i | 0 <= i < |c| :: At(c, i) == At(d, i)
    ensures c == d
  {
    assert forall i | 0 <= i < |c| :: c[i] == At(c, i) && d[i] == At(d, i);
  }

  // ---- One writer ----------------------------------------------------------------------------

  /**
   A writer is yet to compare, has written so many bytes, or is finished, because it cut the file to
   length or found the content already right.
   */
  datatype Writer = Comparing | Writing(p: nat) | Finished

  /** Where comparing leads when the file can be read. */
  function Compared(c: Bytes, data: Bytes): Writer {
    if c == data then Finished else Writing(0)
  }

  /**
   Its next system call; a chunk may have any size. A writer that fails to read the file does not know
   what it holds, and writes.
   */
  predicate WriterNext(c: Bytes, w: Writer, data: Bytes, c': Bytes, w': Writer) {
    match w
    case Comparing => c' == c && (w' == Compared(c, data) || w' == Writing(0))
    case Writing(p) =>
      if p < |data| then w'.Writing? && p < w'.p <= |data| && c' == Overwrite(c, p, data[p..w'.p])
      else w' == Finished && c' == Resize(c, |data|)
    case Finished => false
  }

  /** A writer puts its own bytes in place, and has all of them there when it finishes. */
  lemma OwnBytes(c: Bytes, w: Writer, data: Bytes, c': Bytes, w': Writer)
    requires WriterNext(c, w, data, c', w') && (w.Writing? ==> Intact(c, data, w.p))
    ensures w'.Writing? ==> Intact(c', data, w'.p)
    ensures w'.Finished? ==> c' == data
  {
    if w.Writing? && w.p < |data| {
      OverwriteAt(c, w.p, data[w.p..w'.p]);
    } else if w.Writing? {
      ResizeAt(c, |data|);
      SameBytes(c', data);
    }
  }

  /** Extended with zeros, the two are the same. */
  predicate SamePadded(x: Bytes, y: Bytes) {
    forall i | 0 <= i < |x| + |y| :: At(x, i) == At(y, i)
  }

  /** A writer leaves in place what another one has written of the same bytes. */
  lemma OthersBytes(c: Bytes, x: Bytes, p: nat, w: Writer, y: Bytes, c': Bytes, w': Writer)
    requires Intact(c, x, p) && SamePadded(x, y) && WriterNext(c, w, y, c', w')
    ensures Intact(c', x, p)
  {
    assert forall i | 0 <= i < p :: At(x, i) == x[i];
    if w.Writing? && w.p < |y| {
      OverwriteAt(c, w.p, y[w.p..w'.p]);
      assert forall i | 0 <= i < p :: w.p <= i < w'.p ==> At(c', i) == y[w.p..w'.p][i - w.p] == At(y, i);
    } else if w.Writing? {
      ResizeAt(c, |y|);
    }
  }

  lemma DataStays(w: Writer, data: Bytes, c': Bytes, w': Writer)
    requires WriterNext(data, w, data, c', w')
    ensures c' == data
  {
    if w.Writing? && w.p < |data| {
      OverwriteAt(data, w.p, data[w.p..w'.p]);
      SameBytes(c', data);
    }
  }

  // ---- Several writers -----------------------------------------------------------------------

  datatype Shared = Shared(content: Bytes, writers: seq<Writer>)

  /** Writer `w`, whose bytes are `datas[w]`, makes its next call. */
  predicate Step(a: Shared, b: Shared, datas: seq<Bytes>, w: nat) {
    && w < |a.writers| == |b.writers| == |datas|
    && b.writers == a.writers[w := b.writers[w]]
    && WriterNext(a.content, a.writers[w], datas[w], b.content, b.writers[w])
  }

  /** A schedule says which writer makes the next call. */
  predicate Run(states: seq<Shared>, datas: seq<Bytes>, schedule: seq<nat>) {
    && |states| == |schedule| + 1
    && states[0].writers == seq(|datas|, i => Comparing)
    && forall k | 0 <= k < |schedule| :: Step(states[k], states[k + 1], datas, schedule[k])
  }

  /** What each unfinished writer has written is in place. */
  predicate AllIntact(a: Shared, datas: seq<Bytes>) {
    && |a.writers| == |datas|
    && forall w | 0 <= w < |datas| && a.writers[w].Writing? :: Intact(a.content, datas[w], a.writers[w].p)
  }

  predicate AllSame(datas: seq<Bytes>) {
    forall v, w | 0 <= v < |datas| && 0 <= w < |datas| :: SamePadded(datas[v], datas[w])
  }

  /** As long as the bytes agree up to zeros at the end, each writer leaves its own when it finishes. */
  lemma {:induction false} AgreeingWriters(states: seq<Shared>, datas: seq<Bytes>, schedule: seq<nat>, k: nat)
    requires Run(states, datas, schedule) && AllSame(datas) && k <= |schedule|
    ensures AllIntact(states[k], datas)
    ensures k > 0 && states[k].writers[schedule[k - 1]].Finished? ==> states[k].content == datas[schedule[k - 1]]
  {
    if k > 0 {
      AgreeingWriters(states, datas, schedule, k - 1);
      var a, b, w := states[k - 1], states[k - 1 + 1], schedule[k - 1];
      assert Step(a, b, datas, w);
      OwnBytes(a.content, a.writers[w], datas[w], b.content, b.writers[w]);
      forall v | 0 <= v < |datas| && v != w && b.writers[v].Writing?
        ensures Intact(b.content, datas[v], b.writers[v].p)
      {
        OthersBytes(a.content, datas[v], a.writers[v].p, a.writers[w], datas[w], b.content, b.writers[w]);
      }
    }
  }

  /**
   Any number of writers of the same bytes to one file, in chunks of any size and interleaved in any
   way, leave exactly those bytes as soon as the first one has finished, and ever after.
   */
  lemma {:induction false} IdenticalWritersAgree(states: seq<Shared>, datas: seq<Bytes>, schedule: seq<nat>,
      data: Bytes, k: nat)
    requires Run(states, datas, schedule) && k <= |schedule|
    requires forall w | 0 <= w < |datas| :: datas[w] == data
    ensures Finished in states[k].writers ==> states[k].content == data
  {
    if k > 0 && Finished in states[k].writers {
      AgreeingWriters(states, datas, schedule, k);
      var a, b, w := states[k - 1], states[k - 1 + 1], schedule[k - 1];
      assert Step(a, b, datas, w);
      if !b.writers[w].Finished? {
        var v :| 0 <= v < |b.writers| && b.writers[v] == Finished;
        assert a.writers[v] == Finished;
        IdenticalWritersAgree(states, datas, schedule, data, k - 1);
        DataStays(a.writers[w], data, b.content, b.writers[w]);
      }
    }
  }

  // ---- Two writers of different bytes ----------------------------------------------------------

  /** All writers have finished, and the file is none of theirs. */
  predicate Mixed(a: Shared, x: Bytes, y: Bytes) {
    a.writers == [Finished, Finished] && a.content != x && a.content != y
  }

  /** Whenever a writer compares, it can read the file. */
  predicate AllRead(states: seq<Shared>, datas: seq<Bytes>, schedule: seq<nat>)
    requires Run(states, datas, schedule)
  {
    forall k | 0 <= k < |schedule| && Step(states[k], states[k + 1], datas, schedule[k]) ::
      var w := schedule[k];
      states[k].writers[w].Comparing? ==> states[k + 1].writers[w] == Compared(states[k].content, datas[w])
  }

  /**
   Some schedule of two writers on a file holding `was` ends with bytes that neither wrote; `reading`
   says that no read fails on the way.
   */
  ghost predicate CanMix(was: Bytes, x: Bytes, y: Bytes, reading: bool) {
    exists states: seq<Shared>, schedule: seq<nat> ::
      && Run(states, [x, y], schedule) && (reading ==> AllRead(states, [x, y], schedule))
      && states[0].content == was && Mixed(states[|schedule|], x, y)
  }

  /**
   Of equal length they have to differ in two places; of different length it is enough that the longer
   one is not the shorter one followed by zeros.
   */
  predicate Mixable(x: Bytes, y: Bytes) {
    if |x| == |y| then exists i, j | 0 <= i < j < |x| :: x[i] != y[i] && x[j] != y[j]
    else !SamePadded(x, y)
  }

  /** Every byte that should be there is one writer's or the other's. */
  predicate Chosen(c: Bytes, x: Bytes, y: Bytes, p: nat) {
    p <= |c| && p <= |x| && p <= |y| && forall i | 0 <= i < p :: c[i] == x[i] || c[i] == y[i]
  }

  predicate AllChosen(a: Shared, x: Bytes, y: Bytes) {
    && |a.writers| == 2
    && (forall w | 0 <= w < 2 && a.writers[w].Writing? :: Chosen(a.content, x, y, a.writers[w].p))
    && (Finished in a.writers ==> |a.content| == |x| && Chosen(a.content, x, y, |x|))
  }

  lemma ChosenStep(c: Bytes, x: Bytes, y: Bytes, w: Writer, data: Bytes, c': Bytes, w': Writer, p: nat)
    requires |x| == |y| && (data == x || data == y) && WriterNext(c, w, data, c', w')
    requires w.Writing? ==> Chosen(c, x, y, w.p)
    ensures w'.Writing? ==> Chosen(c', x, y, w'.p)
    ensures w'.Finished? ==> |c'| == |x| && Chosen(c', x, y, |x|)
    ensures Chosen(c, x, y, p) ==> Chosen(c', x, y, p)
    ensures |c| == |x| ==> |c'| == |x|
  {
    if w.Writing? && w.p < |data| {
      OverwriteAt(c, w.p, data[w.p..w'.p]);
      assert forall i | 0 <= i < |c'| :: c'[i] == At(c', i);
    } else if w.Writing? {
      ResizeAt(c, |data|);
    }
  }

  lemma {:induction false} EqualLengthsChoose(states: seq<Shared>, x: Bytes, y: Bytes, schedule: seq<nat>, k: nat)
    requires Run(states, [x, y], schedule) && |x| == |y| && k <= |schedule|
    ensures AllChosen(states[k], x, y)
  {
    if k > 0 {
      EqualLengthsChoose(states, x, y, schedule, k - 1);
      var a, b, w := states[k - 1], states[k - 1 + 1], schedule[k - 1];
      assert Step(a, b, [x, y], w);
      var other := 1 - w;
      var p := if a.writers[other].Writing? then a.writers[other].p else |x|;
      ChosenStep(a.content, x, y, a.writers[w], [x, y][w], b.content, b.writers[w], p);
      forall v | 0 <= v < 2 && b.writers[v].Writing?
        ensures Chosen(b.content, x, y, b.writers[v].p)
      {
        assert v == w || b.writers[v] == a.writers[other];
      }
    }
  }

  lemma NeverMixed(states: seq<Shared>, x: Bytes, y: Bytes, schedule: seq<nat>)
    requires Run(states, [x, y], schedule) && !Mixable(x, y)
    ensures !Mixed(states[|schedule|], x, y)
  {
    var k := |schedule|;
    var last := states[k];
    if last.writers == [Finished, Finished] {
      if |x| == |y| {
        EqualLengthsChoose(states, x, y, schedule, k);
        OneDifference(last.content, x, y);
      } else {
        assert k > 0;
        assert Step(states[k - 1], states[k - 1 + 1], [x, y], schedule[k - 1]);
        AgreeingWriters(states, [x, y], schedule, k);
      }
    }
  }

  lemma OneDifference(c: Bytes, x: Bytes, y: Bytes)
    requires |c| == |x| == |y| && Chosen(c, x, y, |x|) && !Mixable(x, y)
    ensures c == x || c == y
  {
    if c != x {
      var i :| 0 <= i < |x| && c[i] != x[i];
      assert forall j | 0 <= j < |x| && j != i :: x[j] == y[j];
    }
  }

  // ---- The file that spares its writers ------------------------------------------------------------

  function Shorter(x: Bytes, y: Bytes): Bytes {
    if |x| < |y| then x else y
  }

  function Longer(x: Bytes, y: Bytes): Bytes {
    if |x| < |y| then y else x
  }

  /**
   The file holds the longer bytes, and the shorter ones are their beginning: then whoever compares
   finds either what it would write, or what a finished writer has left.
   */
  predicate Spared(was: Bytes, x: Bytes, y: Bytes) {
    |x| != |y| && was == Longer(x, y) && Shorter(x, y) <= was
  }

  /** Until the writer of the shorter bytes has finished the file stays as it was. */
  predicate SparedInv(a: Shared, s: nat, short: Bytes, long: Bytes)
    requires s < 2 == |a.writers|
  {
    var l := a.writers[1 - s];
    if a.writers[s].Finished? then
      match l
      case Comparing => a.content == short
      case Writing(p) => Intact(a.content, long, p)
      case Finished => a.content == short || a.content == long
    else a.content == long && !l.Writing?
  }

  lemma SparedStep(a: Shared, b: Shared, x: Bytes, y: Bytes, s: nat, w: nat)
    requires Step(a, b, [x, y], w) && s == (if |x| < |y| then 0 else 1) && |x| != |y| && Shorter(x, y) <= Longer(x, y)
    requires SparedInv(a, s, Shorter(x, y), Longer(x, y))
    requires a.writers[w].Comparing? ==> b.writers[w] == Compared(a.content, [x, y][w])
    requires a.writers[s].Writing? ==> a.writers[s].p <= |Shorter(x, y)|
    ensures SparedInv(b, s, Shorter(x, y), Longer(x, y))
    ensures b.writers[s].Writing? ==> b.writers[s].p <= |Shorter(x, y)|
  {
    var short, long := Shorter(x, y), Longer(x, y);
    if w == s {
      if a.writers[s].Writing? && a.writers[s].p < |short| {
        var p, q := a.writers[s].p, b.writers[s].p;
        OverwriteAt(long, p, short[p..q]);
        assert forall i | p <= i < q :: short[p..q][i - p] == short[i] == long[i];
        SameBytes(b.content, long);
      } else if a.writers[s].Writing? {
        assert Resize(long, |short|) == short;
      }
    } else if a.writers[w].Writing? {
      OwnBytes(a.content, a.writers[w], long, b.content, b.writers[w]);
    }
  }

  lemma {:induction false} SparedRun(states: seq<Shared>, x: Bytes, y: Bytes, schedule: seq<nat>, k: nat)
    requires Run(states, [x, y], schedule) && AllRead(states, [x, y], schedule) && k <= |schedule|
    requires Spared(states[0].content, x, y)
    ensures |states[k].writers| == 2
    ensures var s := if |x| < |y| then 0 else 1;
      && SparedInv(states[k], s, Shorter(x, y), Longer(x, y))
      && (states[k].writers[s].Writing? ==> states[k].writers[s].p <= |Shorter(x, y)|)
  {
    if k > 0 {
      SparedRun(states, x, y, schedule, k - 1);
      assert Step(states[k - 1], states[k - 1 + 1], [x, y], schedule[k - 1]);
      SparedStep(states[k - 1], states[k], x, y, if |x| < |y| then 0 else 1, schedule[k - 1]);
    }
  }

  // ---- The schedules that mix --------------------------------------------------------------------

  /** A run that can go on. */
  datatype Trace = Trace(states: seq<Shared>, schedule: seq<nat>) {
    ghost predicate Valid(m: Mix) {
      && Run(states, m.datas, schedule) && (m.reading ==> AllRead(states, m.datas, schedule))
      && states[0].content == m.was
    }

    function Last(): Shared
      requires |states| == |schedule| + 1
    {
      states[|schedule|]
    }

    function Append(b: Shared, w: nat): Trace {
      Trace(states + [b], schedule + [w])
    }
  }

  /** Two writers on a file holding `was`. */
  datatype Mix = Mix(was: Bytes, datas: seq<Bytes>, reading: bool)

  predicate Two(m: Mix) {
    |m.datas| == 2
  }

  lemma Extend(m: Mix, t: Trace, b: Shared, w: nat)
    requires t.Valid(m) && Step(t.Last(), b, m.datas, w)
    requires m.reading && t.Last().writers[w].Comparing? ==> b.writers[w] == Compared(t.Last().content, m.datas[w])
    ensures t.Append(b, w).Valid(m) && t.Append(b, w).Last() == b
  {
    var t' := t.Append(b, w);
    forall k | 0 <= k < |t'.schedule|
      ensures Step(t'.states[k], t'.states[k + 1], m.datas, t'.schedule[k])
      ensures var v := t'.schedule[k];
        m.reading && t'.states[k].writers[v].Comparing? ==>
          t'.states[k + 1].writers[v] == Compared(t'.states[k].content, m.datas[v])
    {
      if k < |t.schedule| {
        assert Step(t.states[k], t.states[k + 1], m.datas, t.schedule[k]);
      }
    }
  }

  lemma Start(m: Mix) returns (t: Trace)
    requires Two(m)
    ensures t.Valid(m) && t.Last() == Shared(m.was, [Comparing, Comparing])
  {
    t := Trace([Shared(m.was, [Comparing, Comparing])], []);
    assert t.states[0].writers == seq(2, i => Comparing);
  }

  /** Writer `w` opens the file: it has found it different, or could not read it. */
  lemma OpenIt(m: Mix, t: Trace, w: nat) returns (t': Trace)
    requires Two(m) && t.Valid(m) && w < 2 == |t.Last().writers| && t.Last().writers[w].Comparing?
    requires m.reading ==> t.Last().content != m.datas[w]
    ensures t'.Valid(m) && t'.Last() == Shared(t.Last().content, t.Last().writers[w := Writing(0)])
  {
    var b := Shared(t.Last().content, t.Last().writers[w := Writing(0)]);
    Extend(m, t, b, w);
    t' := t.Append(b, w);
  }

  /** Writer `w` writes on to byte `q`, in one chunk if there is anything to write. */
  lemma WriteOn(m: Mix, t: Trace, w: nat, q: nat) returns (t': Trace)
    requires Two(m) && t.Valid(m) && w < 2 == |t.Last().writers| && t.Last().writers[w].Writing?
    requires t.Last().writers[w].p <= q <= |m.datas[w]|
    ensures t'.Valid(m)
    ensures t'.Last().writers == t.Last().writers[w := Writing(q)]
    ensures var a, p := t.Last().content, t.Last().writers[w].p;
      && (p < q ==> |t'.Last().content| >= q)
      && forall i: nat :: At(t'.Last().content, i) == if p <= i < q then m.datas[w][i] else At(a, i)
  {
    var a, p, data := t.Last(), t.Last().writers[w].p, m.datas[w];
    if p == q {
      t' := t;
      assert a.writers == a.writers[w := Writing(q)];
    } else {
      OverwriteAt(a.content, p, data[p..q]);
      var b := Shared(Overwrite(a.content, p, data[p..q]), a.writers[w := Writing(q)]);
      Extend(m, t, b, w);
      t' := t.Append(b, w);
    }
  }

  lemma CutOff(m: Mix, t: Trace, w: nat) returns (t': Trace)
    requires Two(m) && t.Valid(m) && w < 2 == |t.Last().writers| && t.Last().writers[w] == Writing(|m.datas[w]|)
    ensures t'.Valid(m)
    ensures var a := t.Last();
      && t'.Last() == Shared(Resize(a.content, |m.datas[w]|), a.writers[w := Finished])
      && |t'.Last().content| == |m.datas[w]|
      && forall i: nat :: At(t'.Last().content, i) == if i < |m.datas[w]| then At(a.content, i) else 0
  {
    var a := t.Last();
    var b := Shared(Resize(a.content, |m.datas[w]|), a.writers[w := Finished]);
    ResizeAt(a.content, |m.datas[w]|);
    Extend(m, t, b, w);
    t' := t.Append(b, w);
  }

  predicate Neither(m: Mix, t: Trace)
    requires Two(m) && |t.states| == |t.schedule| + 1
  {
    t.Last().writers == [Finished, Finished] && t.Last().content !in m.datas
  }

  /** Writer `f` writes up to `j`, the other one everything, and then the first the rest. */
  lemma MixEqual(m: Mix, i: nat, j: nat, f: nat) returns (t: Trace)
    requires Two(m) && f < 2 && i < j < |m.datas[0]| == |m.datas[1]|
    requires m.datas[0][i] != m.datas[1][i] && m.datas[0][j] != m.datas[1][j]
    requires m.reading ==> m.was != m.datas[f]
    ensures t.Valid(m) && Neither(m, t)
  {
    var n := |m.datas[0]|;
    t := Start(m);
    t := OpenIt(m, t, f);
    t := WriteOn(m, t, f, j);
    assert At(t.Last().content, i) == m.datas[f][i];
    t := OpenIt(m, t, 1 - f);
    t := WriteOn(m, t, 1 - f, n);
    t := CutOff(m, t, 1 - f);
    t := WriteOn(m, t, f, n);
    t := CutOff(m, t, f);
    assert At(t.Last().content, i) == m.datas[1 - f][i] && At(t.Last().content, j) == m.datas[f][j];
    assert forall d <- m.datas :: d == m.datas[f] || d == m.datas[1 - f];
  }

  /** The longer bytes are all written when the shorter ones are written over them, and cut first. */
  lemma MixUnequal(m: Mix, s: nat, i: nat) returns (t: Trace)
    requires Two(m) && s < 2 && |m.datas[s]| < |m.datas[1 - s]| && At(m.datas[0], i) != At(m.datas[1], i)
    requires m.reading ==> m.was != m.datas[1 - s]
    ensures t.Valid(m) && Neither(m, t)
  {
    var l := 1 - s;
    t := Start(m);
    t := OpenIt(m, t, l);
    t := WriteOn(m, t, l, |m.datas[l]|);
    t := OpenIt(m, t, s);
    t := WriteOn(m, t, s, |m.datas[s]|);
    t := CutOff(m, t, s);
    t := CutOff(m, t, l);
    assert i < |m.datas[l]| && At(t.Last().content, i) == At(m.datas[s], i) != m.datas[l][i];
    assert forall d <- m.datas :: d == m.datas[s] || d == m.datas[l];
  }

  /** The file holds the longer bytes: the shorter are written, then the longer, and the shorter is cut last. */
  lemma MixHeld(m: Mix, s: nat, i: nat) returns (t: Trace)
    requires Two(m) && s < 2 && |m.datas[s]| < |m.datas[1 - s]| && m.was == m.datas[1 - s]
    requires i < |m.datas[s]| && m.datas[s][i] != m.datas[1 - s][i]
    ensures t.Valid(m) && Neither(m, t)
  {
    var l := 1 - s;
    t := Start(m);
    t := OpenIt(m, t, s);
    t := WriteOn(m, t, s, |m.datas[s]|);
    assert At(t.Last().content, i) == m.datas[s][i];
    t := OpenIt(m, t, l);
    t := WriteOn(m, t, l, |m.datas[l]|);
    t := CutOff(m, t, l);
    t := CutOff(m, t, s);
    assert At(t.Last().content, i) == m.datas[l][i];
    assert forall d <- m.datas :: d == m.datas[s] || d == m.datas[l];
  }

  lemma TraceMixes(m: Mix, t: Trace, x: Bytes, y: Bytes)
    requires m.datas == [x, y] && t.Valid(m) && Neither(m, t)
    ensures CanMix(m.was, x, y, m.reading)
  {
    assert x in m.datas && y in m.datas;
    assert Mixed(t.states[|t.schedule|], x, y);
  }

  lemma MixPossible(was: Bytes, x: Bytes, y: Bytes, reading: bool)
    requires Mixable(x, y) && (reading ==> !Spared(was, x, y))
    ensures CanMix(was, x, y, reading)
  {
    var m := Mix(was, [x, y], reading);
    var t: Trace;
    if |x| == |y| {
      var i, j :| 0 <= i < j < |x| && x[i] != y[i] && x[j] != y[j];
      t := MixEqual(m, i, j, if was == x then 1 else 0);
    } else {
      var s := if |x| < |y| then 0 else 1;
      if reading && was == m.datas[1 - s] {
        var i :| 0 <= i < |m.datas[s]| && m.datas[s][i] != m.datas[1 - s][i];
        t := MixHeld(m, s, i);
      } else {
        var i :| 0 <= i < |x| + |y| && At(x, i) != At(y, i);
        t := MixUnequal(m, s, i);
      }
    }
    TraceMixes(m, t, x, y);
  }

  /**
   Exactly which bytes two writers can mix: whatever the file held, if a read may fail; and if none
   does, unless the file spares them.
   */
  lemma MixExactly(was: Bytes, x: Bytes, y: Bytes)
    ensures CanMix(was, x, y, false) <==> Mixable(x, y)
    ensures CanMix(was, x, y, true) <==> Mixable(x, y) && !Spared(was, x, y)
  {
    if Mixable(x, y) {
      MixPossible(was, x, y, false);
      if !Spared(was, x, y) {
        MixPossible(was, x, y, true);
      }
    }
    if CanMix(was, x, y, false) {
      MixNeeds(was, x, y, false);
    }
    if CanMix(was, x, y, true) {
      MixNeeds(was, x, y, true);
    }
  }

  lemma MixNeeds(was: Bytes, x: Bytes, y: Bytes, reading: bool)
    requires CanMix(was, x, y, reading)
    ensures Mixable(x, y) && (reading ==> !Spared(was, x, y))
  {
    var states: seq<Shared>, schedule: seq<nat> :|
      && Run(states, [x, y], schedule) && (reading ==> AllRead(states, [x, y], schedule))
      && states[0].content == was && Mixed(states[|schedule|], x, y);
    if !Mixable(x, y) {
      NeverMixed(states, x, y, schedule);
      assert false;
    }
    if reading && Spared(was, x, y) {
      SparedRun(states, x, y, schedule, |schedule|);
      assert false;
    }
  }
}
