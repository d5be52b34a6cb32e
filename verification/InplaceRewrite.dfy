/**
 One file being rewritten in place: what a reader can see between the system calls.
 */
module InplaceRewrite {
  import opened VolumeFs

  /** The first `p` bytes of the new data, followed by what the old content has beyond them. */
  function Mix(old_: Bytes, data: Bytes, p: nat): Bytes
    requires p <= |data|
  {
    data[..p] + (if p < |old_| then old_[p..] else [])
  }

  lemma OverwriteMix(old_: Bytes, data: Bytes, p: nat, q: nat)
    requires p <= q <= |data|
    ensures Overwrite(Mix(old_, data, p), p, data[p..q]) == Mix(old_, data, q)
  {
  }

  lemma ResizeMix(old_: Bytes, data: Bytes)
    ensures Resize(Mix(old_, data, |data|), |data|) == data
  {
  }

  // ---- The calls of one writer on an open file -----------------------------------------------

  /** How far a writer has got: so many bytes written, cut to length, or not a writer of this data. */
  datatype Progress = Wrote(p: nat) | Cut | Other

  function Advance(before: Progress, c: Call, n: Name, i: Ino, data: Bytes): Progress {
    match (before, c)
    case (Wrote(p), WriteAt(m, j, off, b)) =>
      if m == n && j == i && off == p && b != [] && p + |b| <= |data| && b == data[p..p + |b|]
      then Wrote(p + |b|) else Other
    case (Wrote(p), Truncate(m, j, len)) => if m == n && j == i && p == len == |data| then Cut else Other
    case (Cut, Chmod(m, j)) => if m == n && j == i then Cut else Other
    case (Cut, Chown(m, j, _)) => if m == n && j == i then Cut else Other
    case _ => Other
  }

  /** Chunks of any size written one after the other, then the cut, then mode and group. */
  function ProgressOf(t: seq<Call>, n: Name, i: Ino, data: Bytes): Progress {
    if t == [] then Wrote(0) else Advance(ProgressOf(t[..|t| - 1], n, i, data), t[|t| - 1], n, i, data)
  }

  /** What the file holds when a writer that found `old_` has got so far. */
  function Seen(old_: Bytes, data: Bytes, progress: Progress): Bytes {
    match progress
    case Wrote(p) => if p <= |data| then Mix(old_, data, p) else data
    case _ => data
  }

  lemma {:induction false} ProgressPrefix(t: seq<Call>, k: nat, n: Name, i: Ino, data: Bytes)
    requires k <= |t| && !ProgressOf(t, n, i, data).Other?
    ensures !ProgressOf(t[..k], n, i, data).Other?
  {
    if k == |t| {
      assert t[..k] == t;
    } else {
      assert t[..|t| - 1][..k] == t[..k];
      ProgressPrefix(t[..|t| - 1], k, n, i, data);
    }
  }

  /** After every call the file holds a prefix of the new data followed by the old tail, or the data. */
  lemma {:induction false} RewriteContents(s: Fs, t: seq<Call>, n: Name, i: Ino, data: Bytes)
    requires i in s.inodes && !ProgressOf(t, n, i, data).Other?
    ensures i in Replay(s, t).inodes
    ensures ProgressOf(t, n, i, data).Wrote? ==> ProgressOf(t, n, i, data).p <= |data|
    ensures Content(Replay(s, t), i) == Seen(Content(s, i), data, ProgressOf(t, n, i, data))
  {
    var old_ := Content(s, i);
    if t == [] {
      assert Mix(old_, data, 0) == old_;
    } else {
      var front, c := t[..|t| - 1], t[|t| - 1];
      RewriteContents(s, front, n, i, data);
      if c.WriteAt? {
        var p := ProgressOf(front, n, i, data).p;
        OverwriteMix(old_, data, p, p + |c.bytes|);
      } else if c.Truncate? {
        ResizeMix(old_, data);
      }
    }
  }

  /** Calls that wake a watcher of the file with a modify event. */
  predicate Modifies(c: Call) {
    c.WriteAt? || c.Truncate?
  }

  /**
   What a reader of a finished rewrite can see after any number of its calls: always a mix of new
   prefix and old tail, never an empty file where neither old nor new content is empty, and after the
   last modify event exactly the new data.
   */
  lemma RewriteIsGradual(s: Fs, t: seq<Call>, n: Name, i: Ino, data: Bytes, k: nat)
    requires i in s.inodes && ProgressOf(t, n, i, data).Cut? && k <= |t|
    ensures var seen := Content(Replay(s, t[..k]), i);
      && (seen == data || exists p | 0 <= p <= |data| :: seen == Mix(Content(s, i), data, p))
      && (Content(s, i) != [] && data != [] ==> seen != [])
      && ((forall c <- t[k..] :: !Modifies(c)) ==> seen == data)
  {
    ProgressPrefix(t, k, n, i, data);
    RewriteContents(s, t[..k], n, i, data);
    var progress := ProgressOf(t[..k], n, i, data);
    if progress.Wrote? && forall c <- t[k..] :: !Modifies(c) {
      WroteOnlyMoves(t, k, n, i, data);
    }
  }

  /** A writer leaves the writing phase only by a modify event. */
  lemma {:induction false} WroteOnlyMoves(t: seq<Call>, k: nat, n: Name, i: Ino, data: Bytes)
    requires k <= |t| && ProgressOf(t, n, i, data).Cut? && ProgressOf(t[..k], n, i, data).Wrote?
    ensures exists c <- t[k..] :: Modifies(c)
  {
    assert t[..|t|] == t;
    if k < |t| {
      var front, c := t[..|t| - 1], t[|t| - 1];
      assert front[..k] == t[..k];
      assert c in t[k..];
      if !Modifies(c) {
        WroteOnlyMoves(front, k, n, i, data);
        var d :| d in front[k..] && Modifies(d);
        assert d in t[k..];
      }
    }
  }
}
