/** The order in which the files of a payload are written: sorted by name, the certificate last. */
module WriteOrder {
  import opened VolumeFs

  /** Byte-wise order of strings. */
  predicate Less(a: Name, b: Name) {
    b != "" && (a == "" || a[0] < b[0] || (a[0] == b[0] && Less(a[1..], b[1..])))
  }

  /** `b` goes on where `a` ends, or has the greater character where they first differ. */
  ghost predicate Before(a: Name, b: Name) {
    || (|a| < |b| && a == b[..|a|])
    || exists k: nat :: k < |a| && k < |b| && a[..k] == b[..k] && a[k] < b[k]
  }

  /** The order is the ascending one of dictionaries. */
  lemma {:induction false} LessExactly(a: Name, b: Name)
    ensures Less(a, b) <==> Before(a, b)
  {
    if a != "" && b != "" && a[0] == b[0] {
      LessExactly(a[1..], b[1..]);
      assert a == [a[0]] + a[1..] && b == [b[0]] + b[1..];
      if Before(a[1..], b[1..]) {
        BeforeGrows(a[0], a[1..], b[1..]);
      }
      if Before(a, b) {
        BeforeShrinks(a, b);
      }
    } else if a != "" && b != "" {
      assert a[..0] == b[..0];
      assert forall k | 0 < k < |a| && k < |b| :: a[..k][0] != b[..k][0];
    }
  }

  lemma BeforeGrows(c: char, a: Name, b: Name)
    requires Before(a, b)
    ensures Before([c] + a, [c] + b)
  {
    if k: nat :| k < |a| && k < |b| && a[..k] == b[..k] && a[k] < b[k] {
      assert ([c] + a)[..k + 1] == [c] + a[..k] && ([c] + b)[..k + 1] == [c] + b[..k];
      assert ([c] + a)[k + 1] < ([c] + b)[k + 1];
    } else {
      assert ([c] + b)[..|a| + 1] == [c] + b[..|a|];
    }
  }

  lemma BeforeShrinks(a: Name, b: Name)
    requires a != "" && b != "" && a[0] == b[0] && Before(a, b)
    ensures Before(a[1..], b[1..])
  {
    if k: nat :| k < |a| && k < |b| && a[..k] == b[..k] && a[k] < b[k] {
      assert a[1..][..k - 1] == a[..k][1..] && b[1..][..k - 1] == b[..k][1..];
      assert a[1..][k - 1] < b[1..][k - 1];
    } else {
      assert b[1..][..|a| - 1] == b[..|a|][1..];
    }
  }

  lemma {:induction false} LessTotal(a: Name, b: Name)
    ensures a != b ==> Less(a, b) || Less(b, a)
  {
    if a != "" && b != "" {
      LessTotal(a[1..], b[1..]);
      assert a == [a[0]] + a[1..] && b == [b[0]] + b[1..];
    }
  }

  lemma {:induction false} LessTransitive(a: Name, b: Name, c: Name)
    requires Less(a, b) && Less(b, c)
    ensures Less(a, c)
  {
    if a != "" && a[0] == b[0] == c[0] {
      LessTransitive(a[1..], b[1..], c[1..]);
    }
  }

  lemma {:induction false} LessStrict(a: Name)
    ensures !Less(a, a)
  {
    if a != "" {
      LessStrict(a[1..]);
    }
  }

  predicate Sorted(names: seq<Name>) {
    forall i, j | 0 <= i < j < |names| :: Less(names[i], names[j])
  }

  function Insert(n: Name, names: seq<Name>): seq<Name> {
    if names == [] || Less(n, names[0]) then [n] + names
    else [names[0]] + Insert(n, names[1..])
  }

  /** `sort.Strings`. */
  function SortStrings(names: seq<Name>): seq<Name> {
    if names == [] then [] else Insert(names[0], SortStrings(names[1..]))
  }

  lemma {:induction false} InsertElements(n: Name, names: seq<Name>)
    ensures multiset(Insert(n, names)) == multiset(names) + multiset{n}
  {
    if names != [] && !Less(n, names[0]) {
      assert names == [names[0]] + names[1..];
      InsertElements(n, names[1..]);
    }
  }

  lemma SortedCons(n: Name, names: seq<Name>)
    requires Sorted(names) && forall m <- names :: Less(n, m)
    ensures Sorted([n] + names)
  {
  }

  lemma {:induction false} InsertSorted(n: Name, names: seq<Name>)
    requires Sorted(names) && n !in names
    ensures Sorted(Insert(n, names))
  {
    if names != [] && Less(n, names[0]) {
      forall m <- names
        ensures Less(n, m)
      {
        if m != names[0] {
          LessTransitive(n, names[0], m);
        }
      }
      SortedCons(n, names);
    } else if names != [] {
      InsertSorted(n, names[1..]);
      InsertElements(n, names[1..]);
      LessTotal(n, names[0]);
      var rest := Insert(n, names[1..]);
      forall m <- rest
        ensures Less(names[0], m)
      {
        assert m in multiset(rest);
      }
      SortedCons(names[0], rest);
    }
  }

  predicate Distinct(names: seq<Name>) {
    forall i, j | 0 <= i < j < |names| :: names[i] != names[j]
  }

  lemma {:induction false} SortStringsSorts(names: seq<Name>)
    requires Distinct(names)
    ensures Sorted(SortStrings(names))
    ensures multiset(SortStrings(names)) == multiset(names)
  {
    if names != [] {
      assert names == [names[0]] + names[1..];
      SortStringsSorts(names[1..]);
      assert names[0] !in SortStrings(names[1..]) by {
        assert names[0] !in multiset(names[1..]);
      }
      InsertSorted(names[0], SortStrings(names[1..]));
      InsertElements(names[0], SortStrings(names[1..]));
    }
  }

  /** The names before the certificate. */
  function Body(names: seq<Name>, keys: set<Name>, cert: Name): seq<Name> {
    if cert in keys && names != [] then names[..|names| - 1] else names
  }

  /** A permutation of the payload's names, sorted but for the certificate, which comes last. */
  predicate IsWriteOrder(names: seq<Name>, keys: set<Name>, cert: Name) {
    && multiset(names) == multiset(keys)
    && Sorted(Body(names, keys, cert))
    && cert !in Body(names, keys, cert)
    && (cert in keys ==> names != [] && names[|names| - 1] == cert)
  }

  lemma {:induction false} SortedUnique(a: seq<Name>, b: seq<Name>)
    requires Sorted(a) && Sorted(b) && multiset(a) == multiset(b)
    ensures a == b
  {
    assert |a| == |multiset(a)| == |multiset(b)| == |b|;
    if a != [] {
      SameLeast(a, b);
      assert a == [a[0]] + a[1..] && b == [b[0]] + b[1..];
      assert multiset(a[1..]) == multiset(a) - multiset{a[0]};
      assert multiset(b[1..]) == multiset(b) - multiset{b[0]};
      SortedUnique(a[1..], b[1..]);
    }
  }

  lemma SameLeast(a: seq<Name>, b: seq<Name>)
    requires Sorted(a) && Sorted(b) && multiset(a) == multiset(b) && a != [] && b != []
    ensures a[0] == b[0]
  {
    assert a[0] in multiset(b) && b[0] in multiset(a);
    if a[0] != b[0] {
      LessTransitive(a[0], b[0], a[0]);
      LessStrict(a[0]);
    }
  }

  /** The order depends on the payload alone, whatever order Go's map iteration yields. */
  lemma WriteOrderUnique(a: seq<Name>, b: seq<Name>, keys: set<Name>, cert: Name)
    requires IsWriteOrder(a, keys, cert) && IsWriteOrder(b, keys, cert)
    ensures a == b
  {
    BodyElements(a, keys, cert);
    BodyElements(b, keys, cert);
    SortedUnique(Body(a, keys, cert), Body(b, keys, cert));
  }

  lemma BodyElements(names: seq<Name>, keys: set<Name>, cert: Name)
    requires IsWriteOrder(names, keys, cert)
    ensures multiset(Body(names, keys, cert)) == multiset(keys - {cert})
    ensures names == Body(names, keys, cert) + (if cert in keys then [cert] else [])
  {
    if cert in keys {
      var body := names[..|names| - 1];
      assert names == body + [cert];
      assert multiset(names) == multiset(body) + multiset{cert};
      WithoutOne(keys, cert);
      assert multiset(body) == multiset(names) - multiset{cert};
    } else {
      assert keys - {cert} == keys;
    }
  }

  lemma WithoutOne(keys: set<Name>, n: Name)
    requires n in keys
    ensures multiset(keys) == multiset(keys - {n}) + multiset{n}
  {
    assert keys == (keys - {n}) + {n};
  }

  lemma {:induction false} DistinctMultiset(names: seq<Name>)
    requires Distinct(names)
    ensures multiset(names) == multiset(set n <- names)
  {
    if names != [] {
      var front, n := names[..|names| - 1], names[|names| - 1];
      assert names == front + [n];
      DistinctMultiset(front);
      assert n !in front;
      assert (set m <- names) - {n} == (set m <- front);
      WithoutOne((set m <- names), n);
    }
  }

  /** `orderedWriteNames`: the map is iterated in an order of the runtime's choosing. */
  method OrderedWriteNames(files: map<Name, Bytes>, certFileName: Name) returns (names: seq<Name>)
    ensures IsWriteOrder(names, files.Keys, certFileName)
  {
    names := [];
    var left := files.Keys;
    while left != {}
      invariant left <= files.Keys
      invariant forall n :: n in names <==> n in files && n !in left && n != certFileName
      invariant Distinct(names)
      decreases left
    {
      var name :| name in left;
      if name != certFileName {
        names := names + [name];
      }
      left := left - {name};
    }
    CollectedSorts(names, files.Keys, certFileName);
    names := SortStrings(names);
    CertAppended(names, files.Keys, certFileName);
    if certFileName in files {
      names := names + [certFileName];
    }
  }

  lemma CollectedSorts(names: seq<Name>, keys: set<Name>, cert: Name)
    requires Distinct(names) && forall n :: n in names <==> n in keys && n != cert
    ensures Sorted(SortStrings(names)) && multiset(SortStrings(names)) == multiset(keys - {cert})
  {
    DistinctMultiset(names);
    assert (set n <- names) == keys - {cert};
    SortStringsSorts(names);
  }

  lemma CertAppended(names: seq<Name>, keys: set<Name>, cert: Name)
    requires Sorted(names) && multiset(names) == multiset(keys - {cert})
    ensures IsWriteOrder(names + (if cert in keys then [cert] else []), keys, cert)
  {
    assert cert !in multiset(names);
    assert cert !in names;
    if cert in keys {
      WithoutOne(keys, cert);
      assert (names + [cert])[..|names|] == names;
    } else {
      assert names + [] == names;
      assert keys - {cert} == keys;
    }
  }

  lemma WriteOrderElements(names: seq<Name>, keys: set<Name>, cert: Name)
    requires IsWriteOrder(names, keys, cert)
    ensures (set n <- names) == keys
    ensures forall n <- names :: n in keys
    ensures forall k | 0 <= k < |names| && names[k] == cert :: k == |names| - 1
  {
    forall n
      ensures n in names <==> n in keys
    {
      assert n in names <==> n in multiset(names);
      assert n in keys <==> n in multiset(keys);
    }
    assert forall k | 0 <= k < |Body(names, keys, cert)| :: names[k] == Body(names, keys, cert)[k] != cert;
  }
}
