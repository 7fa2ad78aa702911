/** Sorting names as `Vec::<String>::sort` does: by code point, a prefix first. */
module Names {
  import opened Prelude

  predicate Before(a: string, b: string) {
    b != "" && (a == "" || a[0] < b[0] || (a[0] == b[0] && Before(a[1..], b[1..])))
  }

  /** At the first difference `b` goes on where `a` ends, or has the larger character. */
  ghost predicate DiffersAt(a: string, b: string, k: nat) {
    && k <= |a| && k < |b| && a[..k] == b[..k]
    && (k == |a| || a[k] < b[k])
  }

  lemma {:induction false} BeforeExactly(a: string, b: string)
    ensures Before(a, b) <==> exists k :: DiffersAt(a, b, k)
  {
    if a != "" && b != "" && a[0] == b[0] {
      BeforeExactly(a[1..], b[1..]);
      if k: nat :| DiffersAt(a[1..], b[1..], k) {
        assert a[..k + 1] == [a[0]] + a[1..][..k] && b[..k + 1] == [b[0]] + b[1..][..k];
        assert DiffersAt(a, b, k + 1);
      }
      if k: nat :| DiffersAt(a, b, k) {
        if k > 0 {
          assert a[1..][..k - 1] == a[..k][1..] && b[1..][..k - 1] == b[..k][1..];
          assert DiffersAt(a[1..], b[1..], k - 1);
        }
      }
    } else if Before(a, b) {
      assert DiffersAt(a, b, 0);
    } else if k: nat :| DiffersAt(a, b, k) {
      SameHead(a, b, k);
    }
  }

  lemma SameHead(a: string, b: string, k: nat)
    requires DiffersAt(a, b, k)
    ensures k > 0 ==> a != "" && b != "" && a[0] == b[0]
  {
    if k > 0 {
      assert a[..k][0] == a[0] && b[..k][0] == b[0];
    }
  }

  /** Ascending, so each name once. */
  ghost predicate Sorted(names: seq<string>) {
    forall i, j :: 0 <= i < j < |names| ==> Before(names[i], names[j])
  }

  lemma {:induction false} Total(a: string, b: string)
    ensures a == b || Before(a, b) || Before(b, a)
  {
    if a != "" && b != "" && a[0] == b[0] {
      Total(a[1..], b[1..]);
      assert a == [a[0]] + a[1..] && b == [b[0]] + b[1..];
    }
  }

  lemma {:induction false} Transitive(a: string, b: string, c: string)
    requires Before(a, b) && Before(b, c)
    ensures Before(a, c)
  {
    if a != "" && a[0] == b[0] == c[0] {
      Transitive(a[1..], b[1..], c[1..]);
    }
  }

  method Sort(names: set<string>) returns (out: seq<string>)
    ensures Sorted(out) && Elements(out) == names
  {
    hide Before;
    out := [];
    var left := names;
    while left != {}
      invariant Sorted(out) && left <= names && Elements(out) == names - left
      decreases left
    {
      var name :| name in left;
      var i := 0;
      while i < |out| && Before(out[i], name)
        invariant i <= |out| && forall j :: 0 <= j < i ==> Before(out[j], name)
      {
        i := i + 1;
      }
      assert name !in Elements(out);
      Inserted(out, i, name);
      out := out[..i] + [name] + out[i..];
      left := left - {name};
    }
  }

  lemma Inserted(names: seq<string>, i: nat, name: string)
    requires Sorted(names) && i <= |names| && name !in names
    requires forall j :: 0 <= j < i ==> Before(names[j], name)
    requires i < |names| ==> !Before(names[i], name)
    ensures Sorted(names[..i] + [name] + names[i..])
    ensures Elements(names[..i] + [name] + names[i..]) == Elements(names) + {name}
  {
    hide Before;
    var longer := names[..i] + [name] + names[i..];
    if i < |names| {
      Total(names[i], name);
    }
    forall j | i <= j < |names| ensures Before(name, names[j]) {
      if i < j {
        Transitive(name, names[i], names[j]);
      }
    }
    forall x ensures x in longer <==> x in names || x == name {
      if x in names {
        var k :| 0 <= k < |names| && names[k] == x;
        assert longer[if k < i then k else k + 1] == x;
      }
      assert longer[i] == name;
    }
  }
}
