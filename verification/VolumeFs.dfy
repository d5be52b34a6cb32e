/**
 The data directory of one volume, and the effect on it of every system call the writers make.

 A user-visible name is a regular file, a link `n -> ..data/n` into the timestamped directory that
 `..data` points at, or a real directory whose contents are not looked at.
 */
module VolumeFs {
  import opened Prelude

  newtype Byte = b: int | 0 <= b < 256
  type Bytes = seq<Byte>
  type Name = string
  type Ino = nat

  // Where the csi-lib writer publishes: a link to the directory it wrote last.
  const DATA_LINK: Name := "..data"

  // The group of a file the driver has just created.
  const DRIVER_GID: int := 0

  /** Names starting with `..` are the atomic writer's own bookkeeping. */
  predicate Reserved(n: Name) {
    |n| >= 2 && n[0] == '.' && n[1] == '.'
  }

  datatype Entry = File(ino: Ino) | Link | Dir
  datatype DataLink = NoData | Data(ts: Name)
  datatype Inode = Inode(content: Bytes, gid: int)

  datatype Fs = Fs(
    present: bool,
    dirGid: int,
    root: map<Name, Entry>,
    data: DataLink,
    dirs: map<Name, map<Name, Ino>>,
    inodes: map<Ino, Inode>,
    next: Ino)

  /** The directory `..data` resolves to, if it resolves. */
  function Current(s: Fs): Option<map<Name, Ino>> {
    if s.data.Data? && s.data.ts in s.dirs then Some(s.dirs[s.data.ts]) else None
  }

  /** Path lookup of a user-visible name, following the link chain (section 4.13 of POSIX.1-2017). */
  function Resolve(s: Fs, n: Name): Option<Ino> {
    if n !in s.root then None
    else match s.root[n]
      case File(i) => Some(i)
      case Link =>
        (match Current(s)
         case None => None
         case Some(d) => if n in d then Some(d[n]) else None)
      case Dir => None
  }

  predicate IsDir(s: Fs, n: Name) {
    n in s.root && s.root[n].Dir?
  }

  predicate IsLink(s: Fs, n: Name) {
    n in s.root && s.root[n].Link?
  }

  function Content(s: Fs, i: Ino): Bytes {
    if i in s.inodes then s.inodes[i].content else []
  }

  function Gid(s: Fs, i: Ino): int {
    if i in s.inodes then s.inodes[i].gid else DRIVER_GID
  }

  /** What a pod reads at a name. */
  function Lookup(s: Fs, n: Name): Option<Bytes> {
    match Resolve(s, n)
    case None => None
    case Some(i) => Some(Content(s, i))
  }

  /** Everything a pod can read. */
  function View(s: Fs): map<Name, Bytes> {
    map n | n in s.root && Resolve(s, n).Some? :: Content(s, Resolve(s, n).value)
  }

  // ---- Effects of the system calls -------------------------------------------------------

  function Zeros(n: nat): Bytes {
    seq(n, i => 0 as Byte)
  }

  function Resize(c: Bytes, len: nat): Bytes {
    if len <= |c| then c[..len] else c + Zeros(len - |c|)
  }

  function Overwrite(c: Bytes, off: nat, b: Bytes): Bytes {
    var c' := if off > |c| then Resize(c, off) else c;
    c'[..off] + b + (if off + |b| < |c'| then c'[off + |b|..] else [])
  }

  /** The state-changing system calls; the file calls carry the payload name they are made for. */
  datatype Call =
    | MakeDir
    | ChownDir(gid: int)
    | RemoveBehind(name: Name)
    | RemoveEntry(name: Name)
    | Create(name: Name)
    | WriteAt(name: Name, ino: Ino, off: nat, bytes: Bytes)
    | Truncate(name: Name, ino: Ino, len: nat)
    | Chmod(name: Name, ino: Ino)
    | Chown(name: Name, ino: Ino, gid: int)

  function SetInode(s: Fs, i: Ino, node: Inode): Fs {
    s.(inodes := s.inodes[i := node])
  }

  function NewInode(s: Fs): Fs {
    s.(inodes := s.inodes[s.next := Inode([], DRIVER_GID)], next := s.next + 1)
  }

  function Apply(s: Fs, c: Call): Fs {
    match c
    case MakeDir => s.(present := true)
    case ChownDir(g) => s.(dirGid := g)
    case RemoveBehind(n) =>
      (match Current(s)
       case None => s
       case Some(d) => s.(dirs := s.dirs[s.data.ts := d - {n}]))
    case RemoveEntry(n) =>
      s.(root := s.root - {n}, dirs := s.dirs - {n}, data := if n == DATA_LINK then NoData else s.data)
    case Create(n) =>
      if n !in s.root then NewInode(s).(root := s.root[n := File(s.next)])
      else if s.root[n].Link? && Current(s).Some? && n !in Current(s).value then
        NewInode(s).(dirs := s.dirs[s.data.ts := Current(s).value[n := s.next]])
      else s
    case WriteAt(_, i, off, b) =>
      if i in s.inodes then SetInode(s, i, s.inodes[i].(content := Overwrite(s.inodes[i].content, off, b))) else s
    case Truncate(_, i, len) =>
      if i in s.inodes then SetInode(s, i, s.inodes[i].(content := Resize(s.inodes[i].content, len))) else s
    case Chmod(_, _) => s
    case Chown(_, i, g) =>
      if i in s.inodes then SetInode(s, i, s.inodes[i].(gid := g)) else s
  }

  function Replay(s: Fs, t: seq<Call>): Fs {
    if t == [] then s else Apply(Replay(s, t[..|t| - 1]), t[|t| - 1])
  }

  /** The payload name whose file a call changes. */
  function Target(c: Call): Option<Name> {
    match c
    case Create(n) => Some(n)
    case WriteAt(n, _, _, _) => Some(n)
    case Truncate(n, _, _) => Some(n)
    case Chmod(n, _) => Some(n)
    case Chown(n, _, _) => Some(n)
    case _ => None
  }

  // ---- Well-formed and healthy layouts ---------------------------------------------------

  /** Every file in the current timestamped directory has its user-visible link. */
  predicate Coherent(s: Fs) {
    Current(s).Some? ==> forall n <- Current(s).value :: IsLink(s, n)
  }

  /** Every readable file has an inode of its own. */
  predicate OneEntryPerInode(s: Fs) {
    && (forall n <- s.root :: Resolve(s, n).Some? ==> Resolve(s, n).value in s.inodes)
    && (forall n <- s.root, m <- s.root :: n != m && Resolve(s, n).Some? ==> Resolve(s, n) != Resolve(s, m))
  }

  predicate NamesApart(s: Fs) {
    && (forall n <- s.root :: !Reserved(n))
    && (forall t <- s.dirs :: Reserved(t) && t != DATA_LINK)
  }

  predicate WellFormed(s: Fs) {
    && Coherent(s)
    && OneEntryPerInode(s)
    && NamesApart(s)
    && (forall i <- s.inodes :: i < s.next)
    && (!s.present ==> s.root == map[] && s.dirs == map[] && s.data.NoData?)
  }

  /** `..data`, if there, resolves. */
  predicate Healthy(s: Fs) {
    s.data.Data? ==> s.data.ts in s.dirs
  }

  predicate Inv(s: Fs) {
    WellFormed(s) && Healthy(s)
  }

  /**
   `brokenAtomicLayout`: writing through the links cannot repair the volume for these names. Either
   `..data` does not resolve, or it is gone and one of the names is a link into it.
   */
  predicate Broken(s: Fs, names: set<Name>) {
    !Healthy(s) || (s.data.NoData? && exists n <- names :: IsLink(s, n))
  }

  /** No payload finds the layout broken. */
  predicate Whole(s: Fs) {
    Healthy(s) && (s.data.NoData? ==> forall n <- s.root :: !s.root[n].Link?)
  }
}
