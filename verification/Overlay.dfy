/**
 * Laying a source's own fields over a loaded fragment (crates/pawrly-config/src/assemble.rs):
 * the recursive tree merge, described path by path, and the `from:` expansion that uses it.
 */
module Overlay {
  import opened Prelude
  import opened Json

  type Path = seq<string>

  /** What a tree holds at a path; arrays and scalars are leaves. */
  datatype Kind = Absent | Branch | Leaf(value: Value)

  function Get(fields: seq<Entry>, key: string): Option<Value> {
    if fields == [] then None
    else if fields[|fields| - 1].key == key then Some(fields[|fields| - 1].value)
    else Get(fields[..|fields| - 1], key)
  }

  function At(v: Value, p: Path): Kind
    decreases |p|
  {
    if p == [] then (if v.Obj? then Branch else Leaf(v))
    else if !v.Obj? then Absent
    else
      var child := Get(v.fields, p[0]);
      if child.None? then Absent else At(child.value, p[1..])
  }

  /** A map has each key once, at every depth. */
  ghost predicate Keyed(v: Value) {
    v.Obj? ==> OneEach(v.fields) && forall e | e in v.fields :: Keyed(e.value)
  }

  ghost predicate OneEach(fields: seq<Entry>) {
    forall i, j :: 0 <= i < j < |fields| ==> fields[i].key != fields[j].key
  }

  /** Some proper part of the path already ends in a leaf. */
  ghost predicate Blocked(v: Value, p: Path) {
    exists n: nat :: n < |p| && At(v, p[..n]).Leaf?
  }

  /** What a merge must hold at a path: the overlay where it says something, else the base. */
  ghost function Overlaid(base: Value, overlay: Value, p: Path): Kind {
    if At(overlay, p) != Absent then At(overlay, p)
    else if Blocked(overlay, p) then Absent
    else At(base, p)
  }

  ghost predicate IsMerge(merged: Value, base: Value, overlay: Value) {
    forall p: Path :: At(merged, p) == Overlaid(base, overlay, p)
  }

  /** One field: the overlay's value, merged into the base's if both have one. */
  ghost predicate FieldMerged(now: Option<Value>, was: Option<Value>, over: Option<Value>) {
    if over.None? then now == was
    else if was.None? then now == over
    else now.Some? && IsMerge(now.value, was.value, over.value)
  }

  ghost predicate FieldsMerged(now: seq<Entry>, was: seq<Entry>, over: seq<Entry>) {
    forall k: string :: FieldMerged(Get(now, k), Get(was, k), Get(over, k))
  }

  // ----- fields as a map -----

  function IndexOfKey(fields: seq<Entry>, key: string): (r: Option<nat>)
    ensures r.Some? ==>
      r.value < |fields| && fields[r.value].key == key && Get(fields, key) == Some(fields[r.value].value)
    ensures r.None? ==> Get(fields, key) == None
  {
    if fields == [] then None
    else if fields[|fields| - 1].key == key then Some(|fields| - 1)
    else IndexOfKey(fields[..|fields| - 1], key)
  }

  lemma {:induction false} AbsentKey(fields: seq<Entry>, key: string)
    ensures Get(fields, key) == None <==> forall e | e in fields :: e.key != key
  {
    if fields != [] {
      var n := |fields| - 1;
      AbsentKey(fields[..n], key);
      assert fields == fields[..n] + [fields[n]];
    }
  }

  /** In a map, a key stands for the value of its entry. */
  lemma {:induction false} GetExactly(fields: seq<Entry>, key: string, v: Value)
    requires OneEach(fields)
    ensures Get(fields, key) == Some(v) <==> Entry(key, v) in fields
  {
    if fields != [] {
      var n := |fields| - 1;
      GetExactly(fields[..n], key, v);
      assert fields == fields[..n] + [fields[n]];
    }
  }

  lemma {:induction false} GetOfSet(fields: seq<Entry>, j: nat, v: Value, key: string)
    requires j < |fields| && OneEach(fields)
    ensures Get(fields[j := Entry(fields[j].key, v)], key) == if key == fields[j].key then Some(v) else Get(fields, key)
  {
    var n := |fields| - 1;
    var updated := fields[j := Entry(fields[j].key, v)];
    if j == n {
      assert updated[..n] == fields[..n];
    } else {
      assert updated[..n] == fields[..n][j := Entry(fields[j].key, v)];
      GetOfSet(fields[..n], j, v, key);
    }
  }

  lemma GetOfPush(fields: seq<Entry>, e: Entry, key: string)
    ensures Get(fields + [e], key) == if key == e.key then Some(e.value) else Get(fields, key)
  {
    assert (fields + [e])[..|fields|] == fields;
  }

  lemma KeyedSet(fields: seq<Entry>, j: nat, v: Value)
    requires j < |fields| && Keyed(Obj(fields)) && Keyed(v)
    ensures Keyed(Obj(fields[j := Entry(fields[j].key, v)]))
  {
    var updated := fields[j := Entry(fields[j].key, v)];
    forall e | e in updated ensures Keyed(e.value) {
      var i :| 0 <= i < |updated| && updated[i] == e;
      if i != j {
        assert fields[i] in fields;
      }
    }
  }

  lemma KeyedPush(fields: seq<Entry>, e: Entry)
    requires Keyed(Obj(fields)) && Keyed(e.value) && Get(fields, e.key) == None
    ensures Keyed(Obj(fields + [e]))
  {
    AbsentKey(fields, e.key);
    var pushed := fields + [e];
    forall x | x in pushed ensures Keyed(x.value) {
      if x !in fields {
        assert x == e;
      }
    }
  }

  // ----- the merge -----

  /** Merge `overlay` into `base`: at every path the result holds what the overlay says there, else the base. */
  method DeepMerge(base: Value, overlay: Value) returns (merged: Value)
    requires Keyed(base) && Keyed(overlay)
    ensures Keyed(merged) && IsMerge(merged, base, overlay)
    decreases overlay
  {
    if !(base.Obj? && overlay.Obj?) {
      ReplacedWholesale(base, overlay);
      return overlay;
    }
    hide IsMerge, FieldMerged, FieldsMerged, Get, At;
    var b, o := base.fields, overlay.fields;
    NothingMerged(b);
    assert o[..0] == [];
    for i := 0 to |o|
      invariant Keyed(Obj(b)) && FieldsMerged(b, base.fields, o[..i])
    {
      var k, ov := o[i].key, o[i].value;
      assert o[i] in o;
      NotYetMerged(b, base.fields, o, i);
      ghost var was := b;
      var j := IndexOfKey(b, k);
      if j.Some? {
        assert b[j.value] in b;
        var bv := DeepMerge(b[j.value].value, ov);
        KeyedSet(b, j.value, bv);
        b := b[j.value := Entry(k, bv)];
        FieldSet(was, b, base.fields, o, i, j.value, bv);
      } else {
        KeyedPush(b, o[i]);
        b := b + [o[i]];
        FieldPushed(was, b, base.fields, o, i);
      }
    }
    assert o[..|o|] == o;
    MergedByFields(b, base.fields, o);
    return Obj(b);
  }

  lemma ReplacedWholesale(base: Value, overlay: Value)
    requires !(base.Obj? && overlay.Obj?)
    ensures IsMerge(overlay, base, overlay)
  {
    forall p: Path ensures At(overlay, p) == Overlaid(base, overlay, p) {
      if p != [] && !overlay.Obj? {
        assert p[..0] == [] && At(overlay, p[..0]).Leaf?;
      }
    }
  }

  lemma NothingMerged(fields: seq<Entry>)
    ensures FieldsMerged(fields, fields, [])
  {}

  /** The field at hand has not been touched, since keys do not repeat. */
  lemma NotYetMerged(now: seq<Entry>, was: seq<Entry>, over: seq<Entry>, i: nat)
    requires i < |over| && OneEach(over) && FieldsMerged(now, was, over[..i])
    ensures Get(over[..i], over[i].key) == None && Get(now, over[i].key) == Get(was, over[i].key)
  {
    hide IsMerge;
    AbsentKey(over[..i], over[i].key);
    assert FieldMerged(Get(now, over[i].key), Get(was, over[i].key), Get(over[..i], over[i].key));
  }

  lemma FieldSet(now: seq<Entry>, now': seq<Entry>, was: seq<Entry>, over: seq<Entry>, i: nat, j: nat, v: Value)
    requires i < |over| && j < |now| && now[j].key == over[i].key && OneEach(now)
    requires FieldsMerged(now, was, over[..i]) && now' == now[j := Entry(over[i].key, v)]
    requires Get(was, over[i].key) == Some(now[j].value) && IsMerge(v, now[j].value, over[i].value)
    ensures FieldsMerged(now', was, over[..i + 1])
  {
    hide IsMerge, Get;
    assert over[..i + 1] == over[..i] + [over[i]];
    forall k: string ensures FieldMerged(Get(now', k), Get(was, k), Get(over[..i + 1], k)) {
      GetOfSet(now, j, v, k);
      GetOfPush(over[..i], over[i], k);
      assert FieldMerged(Get(now, k), Get(was, k), Get(over[..i], k));
    }
  }

  lemma FieldPushed(now: seq<Entry>, now': seq<Entry>, was: seq<Entry>, over: seq<Entry>, i: nat)
    requires i < |over| && FieldsMerged(now, was, over[..i]) && now' == now + [over[i]]
    requires Get(was, over[i].key) == None
    ensures FieldsMerged(now', was, over[..i + 1])
  {
    hide IsMerge, Get;
    assert over[..i + 1] == over[..i] + [over[i]];
    forall k: string ensures FieldMerged(Get(now', k), Get(was, k), Get(over[..i + 1], k)) {
      GetOfPush(now, over[i], k);
      GetOfPush(over[..i], over[i], k);
      assert FieldMerged(Get(now, k), Get(was, k), Get(over[..i], k));
    }
  }

  lemma MergedByFields(now: seq<Entry>, was: seq<Entry>, over: seq<Entry>)
    requires FieldsMerged(now, was, over)
    ensures IsMerge(Obj(now), Obj(was), Obj(over))
  {
    forall p: Path ensures At(Obj(now), p) == Overlaid(Obj(was), Obj(over), p) {
      if p != [] {
        MergedBelow(now, was, over, p);
      }
    }
  }

  lemma MergedBelow(now: seq<Entry>, was: seq<Entry>, over: seq<Entry>, p: Path)
    requires FieldsMerged(now, was, over) && p != []
    ensures At(Obj(now), p) == Overlaid(Obj(was), Obj(over), p)
  {
    hide Get, Blocked;
    var k, rest := p[0], p[1..];
    assert FieldMerged(Get(now, k), Get(was, k), Get(over, k));
    BlockedBelow(over, p);
    if Get(over, k).Some? && Get(was, k).Some? {
      assert At(Get(now, k).value, rest) == Overlaid(Get(was, k).value, Get(over, k).value, rest);
    }
  }

  lemma BlockedBelow(fields: seq<Entry>, p: Path)
    requires p != []
    ensures Blocked(Obj(fields), p) <==> Get(fields, p[0]).Some? && Blocked(Get(fields, p[0]).value, p[1..])
  {
    hide Get;
    var child := Get(fields, p[0]);
    forall n: nat | 0 < n < |p| 
      ensures At(Obj(fields), p[..n]) == if child.None? then Absent else At(child.value, p[1..][..n - 1])
    {
      assert p[..n][0] == p[0] && p[..n][1..] == p[1..][..n - 1];
    }
    if child.Some? && Blocked(child.value, p[1..]) {
      var n: nat :| n < |p[1..]| && At(child.value, p[1..][..n]).Leaf?;
      assert At(Obj(fields), p[..n + 1]).Leaf?;
    }
  }

  /** Above whatever a tree holds there are only branches. */
  lemma {:induction false} BranchesAbove(v: Value, p: Path, n: nat)
    requires n < |p| && At(v, p) != Absent
    ensures At(v, p[..n]) == Branch
    decreases n
  {
    hide Get;
    if n > 0 {
      assert p[..n][0] == p[0] && p[..n][1..] == p[1..][..n - 1];
      BranchesAbove(Get(v.fields, p[0]).value, p[1..], n - 1);
    }
  }

  // ----- what follows from the path-wise description -----

  /** Merging the same overlay again changes nothing. */
  lemma MergeAbsorbs(merged: Value, base: Value, overlay: Value)
    requires IsMerge(merged, base, overlay)
    ensures IsMerge(merged, merged, overlay)
  {
    hide At, Blocked;
    forall p: Path ensures At(merged, p) == Overlaid(merged, overlay, p) {
      assert At(merged, p) == Overlaid(base, overlay, p);
    }
  }

  /** Equal up to the order of fields. */
  ghost predicate SameTree(v: Value, w: Value) {
    forall p: Path :: At(v, p) == At(w, p)
  }

  /** `c` puts a branch where `b` has a leaf, over part of `a` that `c` leaves alone. */
  ghost predicate Reopens(a: Value, b: Value, c: Value, p: Path, n: nat) {
    && n < |p| && At(b, p[..n]).Leaf? && At(c, p[..n]) == Branch
    && At(a, p) != Absent && At(c, p) == Absent && !Blocked(c, p)
  }

  /** Grouping does not matter, unless a later overlay reopens what an earlier one had closed. */
  lemma GroupingMattersExactly(a: Value, b: Value, c: Value, ab: Value, abThenC: Value, bc: Value, aThenBc: Value)
    requires IsMerge(ab, a, b) && IsMerge(abThenC, ab, c)
    requires IsMerge(bc, b, c) && IsMerge(aThenBc, a, bc)
    ensures SameTree(abThenC, aThenBc) <==> forall p: Path, n: nat :: !Reopens(a, b, c, p, n)
  {
    hide At, IsMerge, Reopens;
    if SameTree(abThenC, aThenBc) {
      forall p: Path, n: nat ensures !Reopens(a, b, c, p, n) {
        if Reopens(a, b, c, p, n) {
          ReopenedDiffers(a, b, c, ab, abThenC, bc, aThenBc, p, n);
        }
      }
    } else {
      var p: Path :| At(abThenC, p) != At(aThenBc, p);
      var n := DifferReopened(a, b, c, ab, abThenC, bc, aThenBc, p);
    }
  }

  /** A scalar in the middle is such a case. */
  lemma ScalarInTheMiddle()
    ensures Reopens(Obj([Entry("x", Obj([Entry("k", Null)]))]), Obj([Entry("x", Null)]),
                    Obj([Entry("x", Obj([]))]), ["x", "k"], 1)
  {
    var v := Obj([Entry("k", Null)]);
    var a, b, c := Obj([Entry("x", v)]), Obj([Entry("x", Null)]), Obj([Entry("x", Obj([]))]);
    var p := ["x", "k"];
    assert p[..1] == ["x"] && p[..0] == [] && p[1..] == ["k"];
    assert Get(v.fields, "k") == Some(Null) && At(a, p) == At(v, ["k"]) == At(Null, []);
    assert At(b, ["x"]) == At(Null, []) && At(c, ["x"]) == At(Obj([]), []) && At(c, p) == At(Obj([]), ["k"]);
  }

  lemma ReopenedDiffers(a: Value, b: Value, c: Value, ab: Value, abThenC: Value, bc: Value, aThenBc: Value,
                        p: Path, n: nat)
    requires IsMerge(ab, a, b) && IsMerge(abThenC, ab, c)
    requires IsMerge(bc, b, c) && IsMerge(aThenBc, a, bc)
    requires Reopens(a, b, c, p, n)
    ensures At(abThenC, p) != At(aThenBc, p)
  {
    hide At, Blocked;
    OpenInMerge(a, b, c, bc, p, n);
    BlockedBy(b, p, n);
    assert At(abThenC, p) == Overlaid(ab, c, p) && At(ab, p) == Overlaid(a, b, p);
    assert At(aThenBc, p) == Overlaid(a, bc, p);
  }

  lemma DifferReopened(a: Value, b: Value, c: Value, ab: Value, abThenC: Value, bc: Value, aThenBc: Value, p: Path)
    returns (n: nat)
    requires IsMerge(ab, a, b) && IsMerge(abThenC, ab, c)
    requires IsMerge(bc, b, c) && IsMerge(aThenBc, a, bc)
    requires At(abThenC, p) != At(aThenBc, p)
    ensures Reopens(a, b, c, p, n)
  {
    hide At, Blocked;
    assert At(abThenC, p) == Overlaid(ab, c, p) && At(ab, p) == Overlaid(a, b, p);
    assert At(aThenBc, p) == Overlaid(a, bc, p) && At(bc, p) == Overlaid(b, c, p);
    BlockedInMerge(b, c, bc, p);
    n := LeafReopened(b, c, bc, p);
  }

  lemma BlockedBy(v: Value, p: Path, n: nat)
    requires n < |p| && At(v, p[..n]).Leaf?
    ensures Blocked(v, p) && At(v, p) == Absent
  {
    hide At;
    if At(v, p) != Absent {
      BranchesAbove(v, p, n);
    }
  }

  /** The merged overlay is blocked where the later one is, and only where one of the two is. */
  lemma BlockedInMerge(b: Value, c: Value, bc: Value, p: Path)
    requires IsMerge(bc, b, c)
    ensures Blocked(c, p) ==> Blocked(bc, p)
    ensures Blocked(bc, p) ==> Blocked(b, p) || Blocked(c, p)
  {
    hide At;
    forall n: nat | n < |p| ensures At(bc, p[..n]) == Overlaid(b, c, p[..n]) {}
  }

  /** Where the earlier overlay is blocked but the merged one is not, the later one branches at the leaf. */
  lemma LeafReopened(b: Value, c: Value, bc: Value, p: Path) returns (n: nat)
    requires IsMerge(bc, b, c) && Blocked(b, p) && !Blocked(c, p) && !Blocked(bc, p)
    ensures n < |p| && At(b, p[..n]).Leaf? && At(c, p[..n]) == Branch
  {
    hide At;
    n :| n < |p| && At(b, p[..n]).Leaf?;
    assert At(bc, p[..n]) == Overlaid(b, c, p[..n]);
    assert forall m: nat | m < n :: p[..n][..m] == p[..m];
  }

  lemma OpenInMerge(a: Value, b: Value, c: Value, bc: Value, p: Path, n: nat)
    requires IsMerge(bc, b, c) && Reopens(a, b, c, p, n)
    ensures At(bc, p) == Absent && !Blocked(bc, p)
  {
    hide At;
    BlockedBy(b, p, n);
    forall m: nat | m < |p| ensures !At(bc, p[..m]).Leaf? {
      assert At(bc, p[..m]) == Overlaid(b, c, p[..m]);
      if m < n {
        assert p[..n][..m] == p[..m];
        BranchesAbove(c, p[..n], m);
      } else if n < m {
        assert p[..m][..n] == p[..n];
        BlockedBy(b, p[..m], n);
      }
    }
    assert At(bc, p) == Overlaid(b, c, p);
  }

  // ----- `from:` -----

  datatype FromError = FromNotText | Unreadable | NotMapping | SetsIdentity | Transitive

  function Without(fields: seq<Entry>, key: string): seq<Entry> {
    if fields == [] then []
    else Without(fields[..|fields| - 1], key) +
         (if fields[|fields| - 1].key == key then [] else [fields[|fields| - 1]])
  }

  lemma {:induction false} GetWithout(fields: seq<Entry>, gone: string, key: string)
    ensures Get(Without(fields, gone), key) == if key == gone then None else Get(fields, key)
  {
    if fields != [] {
      var n := |fields| - 1;
      GetWithout(fields[..n], gone, key);
      if fields[n].key == gone {
        assert Without(fields, gone) == Without(fields[..n], gone);
      } else {
        GetOfPush(Without(fields[..n], gone), fields[n], key);
      }
    }
  }

  lemma KeyedInit(fields: seq<Entry>)
    requires fields != [] && Keyed(Obj(fields))
    ensures var n := |fields| - 1;
      Keyed(Obj(fields[..n])) && Keyed(fields[n].value) && Get(fields[..n], fields[n].key) == None
  {
    var n := |fields| - 1;
    assert fields[n] in fields;
    assert forall e | e in fields[..n] :: e in fields;
    AbsentKey(fields[..n], fields[n].key);
  }

  lemma {:induction false} KeyedWithout(fields: seq<Entry>, gone: string)
    requires Keyed(Obj(fields))
    ensures Keyed(Obj(Without(fields, gone)))
  {
    if fields != [] {
      var n := |fields| - 1;
      KeyedInit(fields);
      KeyedWithout(fields[..n], gone);
      hide Keyed, Get;
      if fields[n].key == gone {
        assert Without(fields, gone) == Without(fields[..n], gone);
      } else {
        GetWithout(fields[..n], gone, fields[n].key);
        KeyedPush(Without(fields[..n], gone), fields[n]);
      }
    }
  }

  function Put(fields: seq<Entry>, key: string, value: Value): seq<Entry> {
    var j := IndexOfKey(fields, key);
    if j.Some? then fields[j.value := Entry(key, value)] else fields + [Entry(key, value)]
  }

  lemma PutField(fields: seq<Entry>, key: string, value: Value)
    requires Keyed(Obj(fields)) && Keyed(value)
    ensures Keyed(Obj(Put(fields, key, value)))
    ensures forall k :: Get(Put(fields, key, value), k) == if k == key then Some(value) else Get(fields, k)
  {
    hide Get;
    var j := IndexOfKey(fields, key);
    if j.Some? {
      KeyedSet(fields, j.value, value);
      forall k ensures Get(Put(fields, key, value), k) == if k == key then Some(value) else Get(fields, k) {
        GetOfSet(fields, j.value, value, k);
      }
    } else {
      KeyedPush(fields, Entry(key, value));
      forall k ensures Get(Put(fields, key, value), k) == if k == key then Some(value) else Get(fields, k) {
        GetOfPush(fields, Entry(key, value), k);
      }
    }
  }

  /** Putting a field in after the merge is merging it, where the base has none. */
  lemma PutAfterMerge(merged: seq<Entry>, base: seq<Entry>, overlay: seq<Entry>, key: string, value: Value)
    requires Keyed(Obj(merged)) && Keyed(value)
    requires IsMerge(Obj(merged), Obj(base), Obj(Without(overlay, key)))
    requires Get(base, key) == None && Get(overlay, key) == Some(value)
    ensures IsMerge(Obj(Put(merged, key, value)), Obj(base), Obj(overlay))
  {
    hide Get, Blocked, Put, Keyed, Without;
    PutField(merged, key, value);
    forall p: Path ensures At(Obj(Put(merged, key, value)), p) == Overlaid(Obj(base), Obj(overlay), p) {
      if p != [] {
        GetWithout(overlay, key, p[0]);
        BlockedBelow(overlay, p);
        BlockedBelow(Without(overlay, key), p);
        assert At(Obj(merged), p) == Overlaid(Obj(base), Obj(Without(overlay, key)), p);
      }
    }
  }

  lemma {:induction false} WithoutAbsent(fields: seq<Entry>, key: string)
    requires Get(fields, key) == None
    ensures Without(fields, key) == fields
  {
    if fields != [] {
      WithoutAbsent(fields[..|fields| - 1], key);
    }
  }

  /** The fragment a `from:` may load: a mapping with neither identity nor a `from:` of its own. */
  function FragmentError(fragment: Value): Option<FromError> {
    if !fragment.Obj? then Some(NotMapping)
    else if Get(fragment.fields, "name").Some? || Get(fragment.fields, "kind").Some? then Some(SetsIdentity)
    else if Get(fragment.fields, "from").Some? then Some(Transitive)
    else None
  }

  ghost predicate HasField(v: Value, key: string) {
    v.Obj? && exists e :: e in v.fields && e.key == key
  }

  /** A fragment is refused exactly for not being a mapping, for a name or kind, or for a `from:`. */
  lemma FragmentExactly(fragment: Value)
    ensures FragmentError(fragment) == Some(NotMapping) <==> !fragment.Obj?
    ensures FragmentError(fragment) == Some(SetsIdentity) <==> HasField(fragment, "name") || HasField(fragment, "kind")
    ensures FragmentError(fragment) == Some(Transitive) <==>
            HasField(fragment, "from") && !HasField(fragment, "name") && !HasField(fragment, "kind")
    ensures FragmentError(fragment) == None <==>
            fragment.Obj? && forall e | e in fragment.fields :: e.key !in {"name", "kind", "from"}
  {
    if fragment.Obj? {
      AbsentKey(fragment.fields, "name");
      AbsentKey(fragment.fields, "kind");
      AbsentKey(fragment.fields, "from");
    }
  }

  /** What `from:` names, if the source has one. */
  function FromOf(src: Value): Option<Value> {
    if src.Obj? then Get(src.fields, "from") else None
  }

  predicate Fails(from: Value, load: string -> Option<Value>, error: FromError) {
    if !from.Str? then error == FromNotText
    else if load(from.s) == None then error == Unreadable
    else FragmentError(load(from.s).value) == Some(error)
  }

  /**
   * Expand `from:`: the whole inline body but `from` itself, name and kind included, is laid over
   * the fragment. What comes out has no `from:`, so expanding it again does nothing.
   */
  method ExpandFrom(src: Value, load: string -> Option<Value>) returns (r: Result<Value, FromError>)
    requires Keyed(src) && forall s: string :: load(s).Some? ==> Keyed(load(s).value)
    ensures FromOf(src) == None ==> r == Ok(src)
    ensures r.Ok? && FromOf(src).Some? ==>
      && FromOf(src).value.Str? && load(FromOf(src).value.s).Some?
      && var fragment := load(FromOf(src).value.s).value;
      && FragmentError(fragment) == None
      && IsMerge(r.value, fragment, Obj(Without(src.fields, "from")))
      && FromOf(r.value) == None && Keyed(r.value)
    ensures r.Err? ==> FromOf(src).Some? && Fails(FromOf(src).value, load, r.error)
  {
    var from := FromOf(src);
    if from == None {
      return Ok(src);
    }
    if !from.value.Str? {
      return Err(FromNotText);
    }
    var loaded := load(from.value.s);
    if loaded == None {
      return Err(Unreadable);
    }
    var fragment := loaded.value;
    var bad := FragmentError(fragment);
    if bad.Some? {
      return Err(bad.value);
    }
    var merged := MergeBody(src.fields, fragment);
    return Ok(merged);
  }

  /** The body without its identity is merged; name and kind are put back after. */
  method MergeBody(inline: seq<Entry>, fragment: Value) returns (merged: Value)
    requires Keyed(Obj(inline)) && Keyed(fragment) && FragmentError(fragment) == None
    ensures Keyed(merged) && merged.Obj? && Get(merged.fields, "from") == None
    ensures IsMerge(merged, fragment, Obj(Without(inline, "from")))
  {
    hide Get, Without, At, IsMerge, Keyed, Put;
    var whole := Without(inline, "from");
    var kindless := Without(whole, "kind");
    var overlay := Without(kindless, "name");
    KeyedWithout(inline, "from");
    KeyedWithout(whole, "kind");
    KeyedWithout(kindless, "name");
    merged := DeepMerge(fragment, Obj(overlay));
    merged := PutBack(merged, fragment, kindless, "name");
    merged := PutBack(merged, fragment, whole, "kind");
    GetWithout(inline, "from", "from");
    NoSuchField(merged, fragment, whole, "from");
  }

  method PutBack(merged: Value, fragment: Value, fields: seq<Entry>, key: string) returns (m: Value)
    requires Keyed(merged) && Keyed(Obj(fields)) && fragment.Obj? && Get(fragment.fields, key) == None
    requires IsMerge(merged, fragment, Obj(Without(fields, key)))
    ensures Keyed(m) && m.Obj? && IsMerge(m, fragment, Obj(fields))
  {
    MergeIsBranch(merged, fragment, Without(fields, key));
    m := merged;
    var own := Get(fields, key);
    if own.Some? {
      GetKeyed(fields, key);
      PutField(merged.fields, key, own.value);
      PutAfterMerge(merged.fields, fragment.fields, fields, key, own.value);
      m := Obj(Put(merged.fields, key, own.value));
    } else {
      WithoutAbsent(fields, key);
    }
  }

  lemma MergeIsBranch(merged: Value, base: Value, overlay: seq<Entry>)
    requires IsMerge(merged, base, Obj(overlay))
    ensures merged.Obj?
  {
    assert At(merged, []) == Overlaid(base, Obj(overlay), []);
  }

  lemma {:induction false} GetKeyed(fields: seq<Entry>, key: string)
    requires Keyed(Obj(fields)) && Get(fields, key).Some?
    ensures Keyed(Get(fields, key).value)
  {
    var j := IndexOfKey(fields, key);
    assert fields[j.value] in fields;
  }

  lemma BranchOrLeaf(v: Value)
    ensures At(v, []) != Absent
  {}

  lemma NoSuchField(merged: Value, base: Value, overlay: seq<Entry>, key: string)
    requires merged.Obj? && base.Obj? && IsMerge(merged, base, Obj(overlay))
    requires Get(base.fields, key) == None && Get(overlay, key) == None
    ensures Get(merged.fields, key) == None
  {
    hide Get;
    assert [key][..0] == [] && [key][0] == key && [key][1..] == [];
    if Get(merged.fields, key).Some? {
      BranchOrLeaf(Get(merged.fields, key).value);
    }
    assert At(merged, [key]) == Overlaid(base, Obj(overlay), [key]);
  }
}
