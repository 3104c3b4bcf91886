/**
 * Renaming a directory of an object store (obsx/obs.go): every listed object is copied under
 * the new prefix, then everything under the old prefix is deleted. Listings, copies and
 * deletions can fail at any point, and there are no transactions.
 */
module ObsRename {
  import opened Strings

  /** A bucket: the content of each key. */
  type Objects = map<string, string>

  /** A key with exactly one slash at its end. */
  function DirectoryKey(key: string): string {
    TrimRight(key, '/') + "/"
  }

  /** `key` names the directory `p`: p itself, followed by n slashes. */
  predicate Names(key: string, p: string, n: nat) {
    |key| == |p| + n && p <= key && (forall i | |p| <= i < |key| :: key[i] == '/') && (p == "" || p[|p| - 1] != '/')
  }

  /** However many slashes follow the name, the directory's key is the name and one slash. */
  lemma DirectoryKeyOf(key: string, p: string, n: nat)
    requires Names(key, p, n)
    ensures DirectoryKey(key) == p + "/"
  {
    assert TrimRight(key, '/') == p;
  }

  /** strings.TrimPrefix */
  function TrimPrefix(s: string, prefix: string): string {
    if prefix <= s then s[|prefix|..] else s
  }

  function NewKey(src: string, dst: string, key: string): string {
    DirectoryKey(dst) + TrimPrefix(key, src)
  }

  /** What a recursive listing of a prefix yields: its keys in some order. */
  predicate Lists(keys: seq<string>, m: Objects, prefix: string) {
    && (forall k | k in keys :: k in m && prefix <= k)
    && (forall k | k in m && prefix <= k :: k in keys)
  }

  /** One listed key is copied; the marker is skipped. */
  function CopyStep(m: Objects, src: string, dst: string, key: string): Objects {
    if key == src || key !in m then m else m[NewKey(src, dst, key) := m[key]]
  }

  /** The bucket after the listed keys have been copied one after the other. */
  function Copied(m: Objects, src: string, dst: string, keys: seq<string>): Objects {
    if keys == [] then m
    else CopyStep(Copied(m, src, dst, keys[..|keys| - 1]), src, dst, keys[|keys| - 1])
  }

  lemma CopiedOn(m: Objects, src: string, dst: string, keys: seq<string>, i: nat)
    requires i < |keys|
    ensures Copied(m, src, dst, keys[..i + 1]) == CopyStep(Copied(m, src, dst, keys[..i]), src, dst, keys[i])
  {
    assert keys[..i + 1][..i] == keys[..i];
  }

  function Under(m: Objects, prefix: string): set<string> {
    set k | k in m && prefix <= k
  }

  // ---- the operation ----

  /** The bucket after `copies` copies and the removal of some keys of the old directory. */
  predicate Reached(m: Objects, src: string, dst: string, order: seq<string>, copies: nat, removed: set<string>,
                    r: Objects)
  {
    && Lists(order, m, src) && copies <= |order|
    && r == Copied(m, src, dst, order[..copies]) - removed
    && (removed != {} ==> copies == |order|)
    && removed <= Under(Copied(m, src, dst, order[..copies]), DirectoryKey(src))
  }

  /** Everything listed was copied, and everything then under the old directory removed. */
  predicate Finished(m: Objects, src: string, dst: string, order: seq<string>, copies: nat, removed: set<string>) {
    copies == |order| && removed == Under(Copied(m, src, dst, order), DirectoryKey(src))
  }

  /** What goes wrong in one call. */
  datatype Faults = Faults(
    listBreaksAt: nat,         // the first listing fails after that many keys
    copyFails: set<string>,    // copies that are answered with an error ...
    copyApplied: set<string>,  // ... although some of them took place
    secondListFails: bool,
    removeFails: set<string>)  // keys that DeleteDirectory does not get removed

  /** The listing gets through, and so does every copy. */
  predicate CopiesSucceed(src: string, keys: seq<string>, faults: Faults) {
    |keys| < faults.listBreaksAt && forall j | 0 <= j < |keys| && keys[j] != src :: keys[j] !in faults.copyFails
  }

  /** Exactly the keys that start with the directory's name and a slash are gone. */
  predicate EmptiedOnly(m: Objects, p: string, r: Objects) {
    r == map k | k in m && !(p + "/" <= k) :: m[k]
  }

  /** Neither directory is the other or lies inside it. */
  predicate Beside(p: string, q: string) {
    !(p + "/" <= q + "/") && !(q + "/" <= p + "/")
  }

  /** Each object of p is in q under the same relative name, p is empty, and the rest is as it was. */
  ghost predicate MovedOnly(m: Objects, p: string, q: string, r: Objects) {
    && (forall rel | rel != "" && p + "/" + rel in m :: q + "/" + rel in r && r[q + "/" + rel] == m[p + "/" + rel])
    && (forall k | p + "/" <= k :: k !in r)
    && (forall k | !(p + "/" <= k) && !(q + "/" <= k) :: SameAt(k, m, r))
    && (forall rel | p + "/" + rel !in m || rel == "" :: SameAt(q + "/" + rel, m, r))
  }

  /** Same presence and content of one key. */
  predicate SameAt(k: string, m: Objects, m': Objects) {
    (k in m <==> k in m') && (k in m ==> m[k] == m'[k])
  }

  class Bucket {
    var objects: Objects

    constructor (objects: Objects)
      ensures this.objects == objects
    {
      this.objects := objects;
    }

    method ListObjects(prefix: string) returns (keys: seq<string>)
      ensures Lists(keys, objects, prefix)
    {
      keys := [];
      var left := objects.Keys;
      while left != {}
        invariant left <= objects.Keys
        invariant forall k | k in keys :: k in objects && prefix <= k
        invariant forall k | k in objects && k !in left && prefix <= k :: k in keys
        decreases |left|
      {
        var key :| key in left;
        if prefix <= key {
          keys := keys + [key];
        }
        left := left - {key};
      }
    }

    /** Every listed key is asked to be removed; the first error is returned after all answers. */
    method DeleteDirectory(prefix: string, faults: Faults) returns (ok: bool, ghost removed: set<string>)
      modifies this
      ensures objects == old(objects) - removed
      ensures var all := Under(old(objects), DirectoryKey(prefix));
              && removed == (if faults.secondListFails then {} else all - faults.removeFails)
              && (ok <==> !faults.secondListFails && all !! faults.removeFails)
      ensures forall p, n | Names(prefix, p, n) && !faults.secondListFails ::
                removed == Under(old(objects), p + "/") - faults.removeFails
      ensures ok ==> forall p, n | Names(prefix, p, n) :: EmptiedOnly(old(objects), p, objects)
    {
      forall p, n | Names(prefix, p, n) ensures DirectoryKey(prefix) == p + "/" {
        DirectoryKeyOf(prefix, p, n);
      }
      removed := {};
      if faults.secondListFails {
        return false, removed;
      }
      var keys := ListObjects(DirectoryKey(prefix));
      ok := true;
      for i := 0 to |keys|
        invariant removed == (set k | k in keys[..i] && k !in faults.removeFails)
        invariant objects == old(objects) - removed
        invariant ok <==> forall k | k in keys[..i] :: k !in faults.removeFails
      {
        if keys[i] in faults.removeFails {
          ok := false;
        } else {
          objects := objects - {keys[i]};
          removed := removed + {keys[i]};
        }
      }
      assert keys[..|keys|] == keys;
    }

    /** A copy that is answered with an error may nevertheless have taken place. */
    method CopyObject(src: string, dst: string, key: string, faults: Faults) returns (ok: bool, ghost applied: bool)
      requires key != src
      modifies this
      ensures objects == if applied then CopyStep(old(objects), src, dst, key) else old(objects)
      ensures ok <==> key !in faults.copyFails
      ensures ok ==> applied
    {
      ok := key !in faults.copyFails;
      applied := ok || key in faults.copyApplied;
      if (ok || key in faults.copyApplied) && key in objects {
        objects := objects[NewKey(src, dst, key) := objects[key]];
      }
    }

    method CopyListed(src: string, dst: string, keys: seq<string>, faults: Faults) returns (ok: bool, ghost copies: nat)
      modifies this
      ensures copies <= |keys| && objects == Copied(old(objects), src, dst, keys[..copies])
      ensures ok ==> copies == |keys|
      ensures ok <==> CopiesSucceed(src, keys, faults)
    {
      copies := 0;
      for i := 0 to |keys|
        invariant copies == i && objects == Copied(old(objects), src, dst, keys[..i])
        invariant i <= faults.listBreaksAt && forall j | 0 <= j < i && keys[j] != src :: keys[j] !in faults.copyFails
      {
        if i == faults.listBreaksAt {
          return false, copies;
        }
        CopiedOn(old(objects), src, dst, keys, i);
        if keys[i] == src {
          copies := i + 1;
          continue;
        }
        ghost var applied;
        ok, applied := CopyObject(src, dst, keys[i], faults);
        if applied {
          copies := i + 1;
        }
        if !ok {
          return false, copies;
        }
      }
      ok := |keys| != faults.listBreaksAt;
    }

    /**
     * The bucket always ends as the first `copies` of the listed keys copied, and only after all
     * of them were copied as some keys of the old directory removed; all of them on success.
     */
    method RenameDirectory(src: string, dst: string, faults: Faults)
      returns (ok: bool, ghost order: seq<string>, ghost copies: nat, ghost removed: set<string>)
      requires HasSuffix(src, "/")
      modifies this
      ensures Reached(old(objects), src, dst, order, copies, removed, objects)
      ensures ok ==> Finished(old(objects), src, dst, order, copies, removed)
      ensures ok <==> && CopiesSucceed(src, order, faults) && !faults.secondListFails
                      && Under(Copied(old(objects), src, dst, order), DirectoryKey(src)) !! faults.removeFails
      ensures Apart(src, dst) ==> NothingLost(old(objects), src, dst, objects)
      ensures Apart(src, dst) && ok ==> objects == Moved(old(objects), src, dst)
      ensures ok ==> forall p, q, n: nat | Names(src, p, 1) && Names(dst, q, n) && Beside(p, q) ::
                       MovedOnly(old(objects), p, q, objects)
    {
      var keys := ListObjects(src);
      order, removed := keys, {};
      ok, copies := CopyListed(src, dst, keys, faults);
      assert ok ==> order[..copies] == order;
      if ok {
        ok, removed := DeleteDirectory(src, faults);
      }
      if Apart(src, dst) {
        NothingLostAnywhere(old(objects), src, dst, order, copies, removed, objects);
        if ok {
          SuccessMoves(old(objects), src, dst, order, copies, removed, objects);
        }
      }
      forall p, q, n: nat | ok && Names(src, p, 1) && Names(dst, q, n) && Beside(p, q)
        ensures MovedOnly(old(objects), p, q, objects)
      {
        ApartIff(src, dst, p, q, 1, n);
        MovesPlainly(old(objects), src, dst, p, q, n);
      }
    }
  }

  // ---- what a rename keeps ----

  /** The old key ends in exactly one slash, and neither directory lies inside the other. */
  predicate Apart(src: string, dst: string) {
    && src == DirectoryKey(src)
    && !(src <= DirectoryKey(dst)) && !(DirectoryKey(dst) <= src)
  }

  /** An object that the move overwrites. */
  ghost predicate Overwritten(m: Objects, src: string, dst: string, k: string) {
    !(src <= k) && exists j :: j in m && src <= j && j != src && k == NewKey(src, dst, j)
  }

  /** Every object but the marker and the overwritten ones is there, under its old or its new key. */
  ghost predicate NothingLost(m: Objects, src: string, dst: string, r: Objects) {
    forall k | k in m && k != src && !Overwritten(m, src, dst, k) ::
      || (k in r && r[k] == m[k])
      || (src <= k && NewKey(src, dst, k) in r && r[NewKey(src, dst, k)] == m[k])
  }

  lemma NewKeyIsApart(src: string, dst: string, key: string)
    requires Apart(src, dst)
    ensures !(src <= NewKey(src, dst, key))
  {
    var new_ := NewKey(src, dst, key);
    if src <= new_ {
      PrefixesOfOneText(new_, src, DirectoryKey(dst));
    }
  }

  lemma NewKeyInjective(src: string, dst: string, a: string, b: string)
    requires src <= a && src <= b && NewKey(src, dst, a) == NewKey(src, dst, b)
    ensures a == b
  {
    var d := |DirectoryKey(dst)|;
    assert a[|src|..] == NewKey(src, dst, a)[d..] == NewKey(src, dst, b)[d..] == b[|src|..];
    assert a == src + a[|src|..] && b == src + b[|src|..];
  }

  lemma NewKeysDiffer(src: string, dst: string)
    ensures forall a, b | src <= a && src <= b && NewKey(src, dst, a) == NewKey(src, dst, b) :: a == b
  {
    forall a, b | src <= a && src <= b && NewKey(src, dst, a) == NewKey(src, dst, b) ensures a == b {
      NewKeyInjective(src, dst, a, b);
    }
  }

  /** Copying writes nothing but the new keys of what it copies. */
  lemma {:induction false} CopiedElsewhere(m: Objects, src: string, dst: string, keys: seq<string>, k: string)
    requires forall j | j in keys && j != src :: k != NewKey(src, dst, j)
    ensures SameAt(k, m, Copied(m, src, dst, keys))
  {
    if keys != [] {
      var rest, key := keys[..|keys| - 1], keys[|keys| - 1];
      assert key in keys && forall j | j in rest :: j in keys;
      CopiedElsewhere(m, src, dst, rest, k);
    }
  }

  /** Copying leaves the old directory as it was. */
  lemma CopiedSource(m: Objects, src: string, dst: string, keys: seq<string>, k: string)
    requires Apart(src, dst) && src <= k
    ensures SameAt(k, m, Copied(m, src, dst, keys))
  {
    forall j | j in keys && j != src ensures k != NewKey(src, dst, j) {
      NewKeyIsApart(src, dst, j);
    }
    CopiedElsewhere(m, src, dst, keys, k);
  }

  /** Copying one key leaves what another key was copied to. */
  lemma CopyStepKeeps(c: Objects, src: string, dst: string, key: string, j: string)
    requires src <= key && src <= j && key != j && NewKey(src, dst, j) in c
    ensures var c' := CopyStep(c, src, dst, key);
            NewKey(src, dst, j) in c' && c'[NewKey(src, dst, j)] == c[NewKey(src, dst, j)]
  {
    if NewKey(src, dst, key) == NewKey(src, dst, j) {
      NewKeyInjective(src, dst, key, j);
    }
  }

  /** What was listed is at its new key, unless it is the marker. */
  lemma {:induction false} CopiedTarget(m: Objects, src: string, dst: string, keys: seq<string>, j: string)
    requires Apart(src, dst) && forall k | k in keys :: k in m && src <= k
    requires j in keys && j != src
    ensures var c := Copied(m, src, dst, keys); NewKey(src, dst, j) in c && c[NewKey(src, dst, j)] == m[j]
  {
    var rest, key := keys[..|keys| - 1], keys[|keys| - 1];
    assert keys == rest + [key];
    assert key in keys;
    if key == j {
      CopiedSource(m, src, dst, rest, key);
    } else {
      assert j in rest && forall k | k in rest :: k in keys;
      CopiedTarget(m, src, dst, rest, j);
      CopyStepKeeps(Copied(m, src, dst, rest), src, dst, key, j);
    }
  }

  /** At every point of failure nothing is lost. */
  lemma NothingLostAnywhere(m: Objects, src: string, dst: string, order: seq<string>, copies: nat, removed: set<string>,
                            r: Objects)
    requires Apart(src, dst) && Reached(m, src, dst, order, copies, removed, r)
    ensures NothingLost(m, src, dst, r)
  {
    var keys := order[..copies];
    forall k | k in m && k != src && !Overwritten(m, src, dst, k)
      ensures (k in r && r[k] == m[k]) || (src <= k && NewKey(src, dst, k) in r && r[NewKey(src, dst, k)] == m[k])
    {
      if src <= k {
        CopiedSource(m, src, dst, keys, k);
        if k in removed {
          assert order[..copies] == order;
          CopiedTarget(m, src, dst, keys, k);
          NewKeyIsApart(src, dst, k);
        }
      } else {
        forall j | j in keys && j != src ensures k != NewKey(src, dst, j) {
          assert j in order;
        }
        CopiedElsewhere(m, src, dst, keys, k);
      }
    }
  }

  /** At every point of failure the keys outside both directories are as they were. */
  lemma OutsideUnchanged(m: Objects, src: string, dst: string, order: seq<string>, copies: nat, removed: set<string>,
                         r: Objects, k: string)
    requires src == DirectoryKey(src) && Reached(m, src, dst, order, copies, removed, r)
    requires !(src <= k) && !(DirectoryKey(dst) <= k)
    ensures SameAt(k, m, r)
  {
    forall j | j in order[..copies] && j != src ensures k != NewKey(src, dst, j) {
      assert DirectoryKey(dst) <= NewKey(src, dst, j);
    }
    CopiedElsewhere(m, src, dst, order[..copies], k);
  }

  /** The bucket with one directory moved: src + rel is at dst + rel, over what was there before. */
  function Moved(m: Objects, src: string, dst: string): Objects {
    NewKeysDiffer(src, dst);
    (map k | k in m && !(src <= k) :: m[k]) + (map j | j in m && src <= j && j != src :: NewKey(src, dst, j) := m[j])
  }

  lemma MovedTarget(m: Objects, src: string, dst: string, j: string)
    requires j in m && src <= j && j != src
    ensures NewKey(src, dst, j) in Moved(m, src, dst) && Moved(m, src, dst)[NewKey(src, dst, j)] == m[j]
  {
    NewKeysDiffer(src, dst);
  }

  lemma MovedElsewhere(m: Objects, src: string, dst: string, k: string)
    requires forall j | j in m && src <= j && j != src :: k != NewKey(src, dst, j)
    ensures if src <= k then k !in Moved(m, src, dst) else SameAt(k, m, Moved(m, src, dst))
  {
  }

  lemma MovedAt(m: Objects, src: string, dst: string, order: seq<string>, c: Objects, k: string)
    requires Apart(src, dst) && Lists(order, m, src) && c == Copied(m, src, dst, order)
    ensures if src <= k then k !in Moved(m, src, dst) else SameAt(k, c, Moved(m, src, dst))
  {
    if j :| j in m && src <= j && j != src && k == NewKey(src, dst, j) {
      NewKeyIsApart(src, dst, j);
      CopiedTarget(m, src, dst, order, j);
      MovedTarget(m, src, dst, j);
    } else {
      MovedElsewhere(m, src, dst, k);
      CopiedElsewhere(m, src, dst, order, k);
    }
  }

  /** On success the directory has been moved, and nothing else has changed. */
  lemma SuccessMoves(m: Objects, src: string, dst: string, order: seq<string>, copies: nat, removed: set<string>,
                     r: Objects)
    requires Apart(src, dst) && Reached(m, src, dst, order, copies, removed, r)
    requires Finished(m, src, dst, order, copies, removed)
    ensures r == Moved(m, src, dst)
  {
    var moved := Moved(m, src, dst);
    assert order[..copies] == order;
    forall k ensures (k in r <==> k in moved) && (k in r ==> r[k] == moved[k]) {
      MovedAt(m, src, dst, order, Copied(m, src, dst, order), k);
    }
  }

  /** The move, in terms of the two names. */
  lemma MovesPlainly(m: Objects, src: string, dst: string, p: string, q: string, n: nat)
    requires Names(src, p, 1) && Names(dst, q, n) && Apart(src, dst)
    ensures MovedOnly(m, p, q, Moved(m, src, dst))
  {
    DirectoryKeyOf(src, p, 1);
    DirectoryKeyOf(dst, q, n);
    assert src == p + "/";
    forall rel | rel != "" && p + "/" + rel in m
      ensures var new_ := q + "/" + rel; new_ in Moved(m, src, dst) && Moved(m, src, dst)[new_] == m[p + "/" + rel]
    {
      assert NewKey(src, dst, src + rel) == q + "/" + rel;
      MovedTarget(m, src, dst, src + rel);
    }
    forall k | p + "/" <= k ensures k !in Moved(m, src, dst) {
      forall j | j in m && src <= j && j != src ensures k != NewKey(src, dst, j) {
        NewKeyIsApart(src, dst, j);
      }
      MovedElsewhere(m, src, dst, k);
    }
    forall k | !(p + "/" <= k) && !(q + "/" <= k) ensures SameAt(k, m, Moved(m, src, dst)) {
      assert forall j :: q + "/" <= NewKey(src, dst, j);
      MovedElsewhere(m, src, dst, k);
    }
    forall rel | p + "/" + rel !in m || rel == "" ensures SameAt(q + "/" + rel, m, Moved(m, src, dst)) {
      NotATarget(m, src, dst, rel);
      PrefixesDiffer(p, q, rel);
      MovedElsewhere(m, src, dst, q + "/" + rel);
    }
  }

  lemma PrefixesDiffer(p: string, q: string, rel: string)
    requires Beside(p, q)
    ensures !(p + "/" <= q + "/" + rel)
  {
    if p + "/" <= q + "/" + rel {
      PrefixesOfOneText(q + "/" + rel, p + "/", q + "/");
    }
  }

  lemma NotATarget(m: Objects, src: string, dst: string, rel: string)
    requires src + rel !in m || rel == ""
    ensures forall j | j in m && src <= j && j != src :: DirectoryKey(dst) + rel != NewKey(src, dst, j)
  {
    forall j | j in m && src <= j && j != src ensures DirectoryKey(dst) + rel != NewKey(src, dst, j) {
      var d := |DirectoryKey(dst)|;
      assert (DirectoryKey(dst) + rel)[d..] == rel && NewKey(src, dst, j)[d..] == j[|src|..];
      assert j == src + j[|src|..];
    }
  }

  /** Two keys are apart exactly if the old one has one slash and neither directory lies inside the other. */
  lemma ApartIff(src: string, dst: string, p: string, q: string, n: nat, k: nat)
    requires Names(src, p, n) && Names(dst, q, k) && n > 0
    ensures Apart(src, dst) <==> n == 1 && Beside(p, q)
  {
    DirectoryKeyOf(src, p, n);
    DirectoryKeyOf(dst, q, k);
    if n == 1 {
      assert src == p + "/";
    }
  }

  // ---- when a rename loses objects ----

  /** The bucket after a call in which nothing goes wrong. */
  function Whole(m: Objects, src: string, dst: string, order: seq<string>): Objects {
    var c := Copied(m, src, dst, order);
    c - Under(c, DirectoryKey(src))
  }

  lemma DirectoryKeyIsPrefix(src: string)
    requires HasSuffix(src, "/")
    ensures DirectoryKey(src) <= src
    ensures src != DirectoryKey(src) ==> |DirectoryKey(src)| < |src| && src[|DirectoryKey(src)|] == '/'
  {
    assert src[|src| - 1] == src[|src| - 1..][0] == '/';
  }

  /** An object beside a source that ends in several slashes is deleted without having been copied. */
  lemma SeveralSlashesLose(src: string, dst: string) returns (m: Objects, order: seq<string>)
    requires HasSuffix(src, "/") && src != DirectoryKey(src)
    ensures Lists(order, m, src) && !NothingLost(m, src, dst, Whole(m, src, dst, order))
  {
    var k := DirectoryKey(src) + "x";
    DirectoryKeyIsPrefix(src);
    m, order := map[k := "content"], [];
    assert src[|k| - 1] == '/' && k[|k| - 1] == 'x';
    assert k in m && k != src && !Overwritten(m, src, dst, k);
    assert k !in Whole(m, src, dst, order);
  }

  /** A copy that lands in the old directory is deleted with it. */
  lemma CopyInsideLoses(src: string, dst: string, rel: string) returns (m: Objects, order: seq<string>)
    requires src == DirectoryKey(src) && rel != "" && src <= DirectoryKey(dst) + rel
    ensures Lists(order, m, src) && !NothingLost(m, src, dst, Whole(m, src, dst, order))
  {
    var k := src + rel;
    m, order := map[k := "content"], [k];
    var target := NewKey(src, dst, k);
    assert TrimPrefix(k, src) == rel;
    assert order[..0] == [];
    assert Copied(m, src, dst, order) == m[target := m[k]];
    assert k in m && k != src && !Overwritten(m, src, dst, k);
    assert k !in Whole(m, src, dst, order) && target !in Whole(m, src, dst, order);
  }

  lemma LosingBucket(src: string, dst: string) returns (m: Objects, order: seq<string>)
    requires HasSuffix(src, "/") && !Apart(src, dst)
    ensures Lists(order, m, src) && !NothingLost(m, src, dst, Whole(m, src, dst, order))
  {
    var d := DirectoryKey(dst);
    if src != DirectoryKey(src) {
      m, order := SeveralSlashesLose(src, dst);
    } else if src <= d {
      m, order := CopyInsideLoses(src, dst, "x");
    } else {
      var rel := src[|d|..] + "x";
      assert d + rel == src + "x";
      m, order := CopyInsideLoses(src, dst, rel);
    }
  }

  /** A rename without any fault loses nothing, whatever the bucket holds and in whatever order it is listed. */
  ghost predicate KeepsEverything(src: string, dst: string) {
    forall m, order | Lists(order, m, src) :: NothingLost(m, src, dst, Whole(m, src, dst, order))
  }

  lemma WholeKeeps(m: Objects, src: string, dst: string, order: seq<string>)
    requires Apart(src, dst) && Lists(order, m, src)
    ensures NothingLost(m, src, dst, Whole(m, src, dst, order))
  {
    assert order[..|order|] == order;
    NothingLostAnywhere(m, src, dst, order, |order|, Under(Copied(m, src, dst, order), DirectoryKey(src)),
                        Whole(m, src, dst, order));
  }

  lemma ApartKeepsEverything(src: string, dst: string)
    requires Apart(src, dst)
    ensures KeepsEverything(src, dst)
  {
    forall m, order | Lists(order, m, src) ensures NothingLost(m, src, dst, Whole(m, src, dst, order)) {
      WholeKeeps(m, src, dst, order);
    }
  }

  lemma EndsInSlash(key: string, p: string, n: nat)
    requires Names(key, p, n) && n > 0
    ensures HasSuffix(key, "/")
  {
    assert key[|key| - 1] == '/';
  }

  /**
   * Renaming the directory p, written with n slashes, to q without any fault keeps every object of
   * every bucket exactly if n is one and neither directory lies inside the other.
   */
  lemma KeepsEverythingIff(src: string, dst: string, p: string, q: string, n: nat, k: nat)
    requires Names(src, p, n) && Names(dst, q, k) && n > 0
    ensures KeepsEverything(src, dst) <==> n == 1 && Beside(p, q)
  {
    ApartIff(src, dst, p, q, n, k);
    if Apart(src, dst) {
      ApartKeepsEverything(src, dst);
    } else {
      EndsInSlash(src, p, n);
      var m, order := LosingBucket(src, dst);
    }
  }
}
