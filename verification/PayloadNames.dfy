/**
 Payload names as paths: which names a write accepts, where they land below the data directory, and
 which root entry they occupy.
 */
module PayloadNames {
  import opened Prelude
  import opened Strings
  import VolumeFs

  const MAX_FILE_NAME_LENGTH: nat := 255
  const MAX_PATH_LENGTH: nat := 4096

  // ---- filepath.Clean and filepath.Join ----------------------------------------------------

  function CleanStep(done: seq<string>, e: string, rooted: bool): seq<string> {
    if e == "" || e == "." then done
    else if e == ".." then
      if done != [] && done[|done| - 1] != ".." then done[..|done| - 1]
      else if rooted then done
      else done + [".."]
    else done + [e]
  }

  function CleanElements(done: seq<string>, elements: seq<string>, rooted: bool): seq<string>
    decreases |elements|
  {
    if elements == [] then done
    else CleanElements(CleanStep(done, elements[0], rooted), elements[1..], rooted)
  }

  predicate IsAbs(p: string) {
    HasPrefix(p, "/")
  }

  function Clean(p: string): string {
    var elements := CleanElements([], Split(p, '/'), IsAbs(p));
    if IsAbs(p) then "/" + Join(elements, '/')
    else if elements == [] then "."
    else Join(elements, '/')
  }

  /** `filepath.Join` of two non-empty paths. */
  function JoinPath(base: string, name: string): string {
    Clean(base + "/" + name)
  }

  // ---- Validation --------------------------------------------------------------------------

  datatype NameError = Empty | Absolute | NotAFile | TooLong | HasDotDot | ElementTooLong | ReservedPrefix

  function CheckElements(elements: seq<string>): Option<NameError> {
    if elements == [] then None
    else if elements[0] == ".." then Some(HasDotDot)
    else if |elements[0]| > MAX_FILE_NAME_LENGTH then Some(ElementTooLong)
    else CheckElements(elements[1..])
  }

  /** The reason a name is refused, if it is. */
  function ValidatePayloadName(name: string): Option<NameError> {
    if name == "" then Some(Empty)
    else if IsAbs(name) then Some(Absolute)
    else if Clean(name) == "." then Some(NotAFile)
    else if |name| > MAX_PATH_LENGTH then Some(TooLong)
    else
      var elements := Split(name, '/');
      var bad := CheckElements(elements);
      if bad.Some? then bad
      else if HasPrefix(elements[0], "..") && |elements[0]| > 2 then Some(ReservedPrefix)
      else None
  }

  predicate Accepted(name: string) {
    ValidatePayloadName(name).None?
  }

  /** The root-level entry a name occupies. */
  function PayloadRootName(name: string): string {
    var clean := Clean(name);
    var i := IndexOf(clean, '/');
    if i != -1 then clean[..i] else clean
  }

  // ---- Where accepted names land -------------------------------------------------------------

  /** The elements of a path that say something. */
  function Kept(elements: seq<string>): seq<string> {
    if elements == [] then []
    else if elements[0] == "" || elements[0] == "." then Kept(elements[1..])
    else [elements[0]] + Kept(elements[1..])
  }

  /** A path element that names an entry of its directory. */
  predicate Proper(e: string) {
    e != "" && e != "." && e != ".." && '/' !in e
  }

  predicate AllProper(elements: seq<string>) {
    forall k | 0 <= k < |elements| :: Proper(elements[k])
  }

  predicate NoDotDot(elements: seq<string>) {
    forall k | 0 <= k < |elements| :: elements[k] != ".."
  }

  predicate Short(elements: seq<string>) {
    forall k | 0 <= k < |elements| :: |elements[k]| <= MAX_FILE_NAME_LENGTH
  }

  predicate SlashFree(elements: seq<string>) {
    forall k | 0 <= k < |elements| :: '/' !in elements[k]
  }

  lemma {:induction false} KeptConcat(a: seq<string>, b: seq<string>)
    ensures Kept(a + b) == Kept(a) + Kept(b)
  {
    if a == [] {
      assert a + b == b;
    } else {
      assert (a + b)[1..] == a[1..] + b;
      KeptConcat(a[1..], b);
    }
  }

  lemma {:induction false} KeptProper(elements: seq<string>)
    requires NoDotDot(elements) && SlashFree(elements)
    ensures AllProper(Kept(elements))
  {
    if elements != [] {
      KeptProper(elements[1..]);
    }
  }

  lemma {:induction false} KeptAll(elements: seq<string>)
    requires AllProper(elements)
    ensures Kept(elements) == elements
  {
    if elements != [] {
      assert Proper(elements[0]);
      KeptAll(elements[1..]);
    }
  }

  lemma {:induction false} CleanKeeps(done: seq<string>, elements: seq<string>, rooted: bool)
    requires NoDotDot(elements)
    ensures CleanElements(done, elements, rooted) == done + Kept(elements)
    decreases |elements|
  {
    if elements != [] {
      assert elements[0] != "..";
      var e, rest := elements[0], Kept(elements[1..]);
      CleanKeeps(CleanStep(done, e, rooted), elements[1..], rooted);
      assert done + [e] + rest == done + ([e] + rest);
    }
  }

  /**
   A `..` takes back the proper element before it; where there is none it says nothing in an absolute path,
   and stays in a relative one.
   */
  lemma CleanDotDot(done: seq<string>, e: string, elements: seq<string>, rooted: bool)
    requires Proper(e)
    ensures CleanElements(done, [e, ".."] + elements, rooted) == CleanElements(done, elements, rooted)
    ensures done == [] ==> CleanElements(done, [".."] + elements, true) == CleanElements(done, elements, true)
    ensures done == [] || done[|done| - 1] == ".." ==>
      CleanElements(done, [".."] + elements, false) == CleanElements(done + [".."], elements, false)
  {
    var up := "..";
    assert ([e, up] + elements)[1..] == [up] + elements && ([up] + elements)[1..] == elements;
    assert (done + [e])[..|done|] == done;
    assert CleanStep(done, e, rooted) == done + [e] && CleanStep(done + [e], up, rooted) == done;
    assert done == [] || done[|done| - 1] == up ==> CleanStep(done, up, false) == done + [up];
  }

  lemma {:induction false} CheckedElements(elements: seq<string>)
    ensures CheckElements(elements).None? <==> NoDotDot(elements) && Short(elements)
  {
    if elements != [] {
      CheckedElements(elements[1..]);
      assert elements == [elements[0]] + elements[1..];
    }
  }

  /** Without `..` elements, cleaning a relative path keeps the elements that say something. */
  lemma CleanIsJoin(name: string)
    requires !IsAbs(name) && NoDotDot(Split(name, '/'))
    ensures var kept := Kept(Split(name, '/'));
      && AllProper(kept)
      && (kept == [] ==> Clean(name) == ".")
      && (kept != [] ==> Clean(name) == Join(kept, '/') != "." && PayloadRootName(name) == kept[0])
  {
    var elements := Split(name, '/');
    var kept := Kept(elements);
    SplitSlashFree(name);
    CleanKeeps([], elements, false);
    KeptProper(elements);
    assert [] + kept == kept;
    if kept != [] {
      JoinProper(kept);
      SplitFirst(Clean(name), '/');
    }
  }

  lemma JoinProper(kept: seq<string>)
    requires kept != [] && AllProper(kept)
    ensures Join(kept, '/') != "." && Split(Join(kept, '/'), '/') == kept
  {
    SplitJoin(kept, '/');
    SplitNone(".", '/');
    assert Proper(kept[0]);
  }

  lemma SplitSlashFree(name: string)
    ensures SlashFree(Split(name, '/'))
  {
    SplitParts(name, '/');
  }

  lemma {:induction false} KeptSome(elements: seq<string>)
    ensures Kept(elements) != [] <==> exists e <- elements :: e != "" && e != "."
  {
    if elements != [] {
      KeptSome(elements[1..]);
      var first, rest := elements[0], elements[1..];
      assert elements == [first] + rest;
      assert forall e :: e in elements <==> e == first || e in rest;
      if first != "" && first != "." {
        assert first in elements;
      } else if e :| e in elements && e != "" && e != "." {
        assert e in rest;
      }
    }
  }

  /**
   Exactly the names that are accepted: relative paths of at most 4096 characters, without `..` elements
   or elements of more than 255, with an element that says something, and no `..` at the start.
   */
  lemma AcceptedExactly(name: string)
    ensures var elements := Split(name, '/');
      Accepted(name) <==>
      && !(name != "" && name[0] == '/')
      && |name| <= 4096
      && (forall e <- elements :: e != ".." && |e| <= 255)
      && (exists e <- elements :: e != "" && e != ".")
      && !(".." <= elements[0])
  {
    var elements := Split(name, '/');
    AcceptedParts(name);
    KeptSome(elements);
    ReservedPrefixed(elements[0]);
    forall e <- elements
      ensures NoDotDot(elements) ==> e != ".."
      ensures Short(elements) ==> |e| <= 255
    {
      var k :| 0 <= k < |elements| && elements[k] == e;
    }
    if forall e <- elements :: e != ".." && |e| <= 255 {
      assert forall k | 0 <= k < |elements| :: elements[k] in elements;
    }
  }

  /** A flat name is accepted exactly if it is not empty, not `.`, not too long, and does not start with `..`. */
  lemma FlatAcceptedExactly(name: string)
    requires '/' !in name
    ensures Accepted(name) <==> name != "" && name != "." && |name| <= 255 && !(".." <= name)
  {
    SplitNone(name, '/');
    AcceptedExactly(name);
    assert name in [name];
  }

  lemma AcceptedParts(name: string)
    ensures var elements := Split(name, '/');
      Accepted(name) <==>
      && !IsAbs(name)
      && |name| <= MAX_PATH_LENGTH
      && NoDotDot(elements) && Short(elements)
      && Kept(elements) != []
      && !VolumeFs.Reserved(elements[0])
  {
    var elements := Split(name, '/');
    CheckedElements(elements);
    ReservedPrefixed(elements[0]);
    if !IsAbs(name) && NoDotDot(elements) {
      CleanIsJoin(name);
      assert elements[0] != "..";
    }
  }

  lemma ReservedPrefixed(e: string)
    ensures VolumeFs.Reserved(e) <==> HasPrefix(e, "..")
    ensures HasPrefix(e, "..") && |e| <= 2 ==> e == ".."
  {
    if VolumeFs.Reserved(e) {
      assert ".." == e[..2];
    }
  }

  /**
   Every accepted name lands strictly below the data directory: the path is the directory's own
   elements followed by at least one more, none of them `..`.
   */
  lemma AcceptedLandsBelow(base: seq<string>, name: string)
    requires AllProper(base) && Accepted(name)
    ensures var kept := Kept(Split(name, '/'));
      && kept != [] && AllProper(kept)
      && JoinPath("/" + Join(base, '/'), name) == "/" + Join(base + kept, '/')
  {
    AcceptedParts(name);
    CleanIsJoin(name);
    var elements := Split(name, '/');
    var dir := "/" + Join(base, '/');
    var baseElements := if base == [] then [""] else base;
    assert Split(dir, '/') == [""] + baseElements by {
      assert dir == "" + ['/'] + Join(base, '/');
      SplitConcat("", Join(base, '/'), '/');
      if base != [] {
        SplitJoin(base, '/');
      }
    }
    assert Kept([""] + baseElements) == base by {
      KeptConcat([""], baseElements);
      KeptAll(base);
    }
    assert dir + "/" + name == dir + ['/'] + name;
    SplitConcat(dir, name, '/');
    KeptConcat([""] + baseElements, elements);
    CleanKeeps([], [""] + baseElements + elements, true);
    var path := dir + "/" + name;
    assert IsAbs(path);
    assert CleanElements([], Split(path, '/'), true) == [] + (base + Kept(elements)) == base + Kept(elements);
  }

  /**
   The root entry of an accepted name is its first element and is never reserved, unless the name
   starts with a `.` element; then it is the first element that follows the dots.
   */
  lemma AcceptedRootEntry(name: string)
    requires Accepted(name)
    ensures var elements := Split(name, '/');
      && Kept(elements) != []
      && PayloadRootName(name) == Kept(elements)[0]
      && (elements[0] != "." ==> PayloadRootName(name) == elements[0])
      && (VolumeFs.Reserved(PayloadRootName(name)) <==> elements[0] == "." && VolumeFs.Reserved(Kept(elements)[0]))
  {
    AcceptedParts(name);
    CleanIsJoin(name);
    SplitFirst(name, '/');
  }

  /** The clean-name precondition is needed: this accepted name occupies the `..data` link itself. */
  lemma DotSlashReachesDataLink()
    ensures Accepted("./..data") && PayloadRootName("./..data") == VolumeFs.DATA_LINK
  {
    DotSlashReaches("./..data", VolumeFs.DATA_LINK);
  }

  lemma DotSlashReaches(name: string, e: string)
    requires name == "./" + e && Proper(e) && |e| <= MAX_FILE_NAME_LENGTH
    ensures Accepted(name) && PayloadRootName(name) == e
  {
    DotSlashElements(name, e);
    var elements := [".", e];
    assert elements[0] == "." && elements[1] == e && |elements| == 2;
    assert NoDotDot(elements) && Short(elements);
    AcceptedParts(name);
    CleanIsJoin(name);
  }

  /** A `.` element in front says nothing, but hides what follows from the reserved-prefix rule. */
  lemma DotSlashElements(name: string, e: string)
    requires name == "./" + e && Proper(e)
    ensures Split(name, '/') == [".", e]
    ensures Kept([".", e]) == [e]
  {
    assert name == "." + ['/'] + e;
    SplitConcat(".", e, '/');
    SplitNone(".", '/');
    SplitNone(e, '/');
    assert ["."] + [e] == [".", e];
    KeptConcat(["."], [e]);
    KeptAll([e]);
    assert Kept(["."]) == Kept(["."][1..]) == [];
  }

  /** A flat name that is accepted is its own root entry, and is not one of the writer's own. */
  lemma FlatName(name: string)
    requires '/' !in name && Accepted(name)
    ensures PayloadRootName(name) == name && !VolumeFs.Reserved(name)
  {
    SplitNone(name, '/');
    AcceptedParts(name);
    CleanIsJoin(name);
    assert [name][1..] == [];
  }
}
