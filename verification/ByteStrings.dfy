// Byte strings: the Go `[]byte` and `string` values of the repository.

module ByteStrings {
  newtype byte = x: int | 0 <= x < 0x100

  type Bytes = seq<byte>

  // The lexicographic order of the string comparator that orders the tree's keys.
  predicate Below(a: Bytes, b: Bytes) {
    if b == [] then false
    else if a == [] then true
    else if a[0] != b[0] then a[0] < b[0]
    else Below(a[1..], b[1..])
  }

  // A string is below its extensions, and at the first difference the smaller byte decides.
  lemma {:induction false} BelowIsLexicographic(p: Bytes, x: byte, y: byte, s: Bytes, t: Bytes)
    ensures Below(p, p + [x] + s)
    ensures x < y ==> Below(p + [x] + s, p + [y] + t) && !Below(p + [y] + t, p + [x] + s)
  {
    if p != [] {
      BelowIsLexicographic(p[1..], x, y, s, t);
      assert (p + [x] + s)[1..] == p[1..] + [x] + s;
      assert (p + [y] + t)[1..] == p[1..] + [y] + t;
    }
  }

  lemma {:induction false} BelowIsTransitive(a: Bytes, b: Bytes, c: Bytes)
    requires Below(a, b) && Below(b, c)
    ensures Below(a, c)
    decreases |a|
  {
    if a != [] && a[0] == b[0] == c[0] {
      BelowIsTransitive(a[1..], b[1..], c[1..]);
    }
  }

  lemma {:induction false} BelowIsTotal(a: Bytes, b: Bytes)
    ensures a == b || Below(a, b) || Below(b, a)
    decreases |a|
  {
    if a != [] && b != [] && a[0] == b[0] {
      BelowIsTotal(a[1..], b[1..]);
      assert a == [a[0]] + a[1..] && b == [b[0]] + b[1..];
    }
  }

  lemma {:induction false} BelowIsIrreflexive(a: Bytes)
    ensures !Below(a, a)
  {
    if a != [] {
      BelowIsIrreflexive(a[1..]);
    }
  }

  ghost predicate Ascending(keys: seq<Bytes>) {
    forall i, j | 0 <= i < j < |keys| :: Below(keys[i], keys[j])
  }

  ghost predicate Distinct<T>(s: seq<T>) {
    forall i, j | 0 <= i < j < |s| :: s[i] != s[j]
  }

  // `keys` lists the elements of `all`, each once, in some order.
  ghost predicate Enumerates<T(!new)>(keys: seq<T>, all: set<T>) {
    Distinct(keys) && forall k :: k in keys <==> k in all
  }

  lemma PrefixSnoc<T>(s: seq<T>, i: nat)
    requires i < |s|
    ensures s[..i + 1] == s[..i] + [s[i]] && s[..i + 1][..i] == s[..i]
  {
  }

  lemma SubsetSize<T>(a: set<T>, b: set<T>)
    requires a <= b
    ensures |a| <= |b|
  {
    assert b == a + (b - a);
  }

  lemma AscendingIsDistinct(keys: seq<Bytes>)
    requires Ascending(keys)
    ensures Distinct(keys)
  {
    forall i, j | 0 <= i < j < |keys|
      ensures keys[i] != keys[j]
    {
      BelowIsIrreflexive(keys[i]);
    }
  }

  function Inserted(keys: seq<Bytes>, key: Bytes): seq<Bytes> {
    if keys == [] || Below(key, keys[0]) then [key] + keys
    else [keys[0]] + Inserted(keys[1..], key)
  }

  lemma {:induction false} InsertedAscends(keys: seq<Bytes>, key: Bytes)
    requires Ascending(keys) && key !in keys
    ensures Ascending(Inserted(keys, key))
    ensures forall k :: k in Inserted(keys, key) <==> k in keys || k == key
  {
    if keys != [] {
      if Below(key, keys[0]) {
        forall j | 0 < j < |keys|
          ensures Below(key, keys[j])
        {
          BelowIsTransitive(key, keys[0], keys[j]);
        }
      } else {
        BelowIsTotal(key, keys[0]);
        InsertedAscends(keys[1..], key);
        var rest := Inserted(keys[1..], key);
        forall j | 0 <= j < |rest|
          ensures Below(keys[0], rest[j])
        {
          assert rest[j] in rest;
        }
      }
    }
  }

  lemma {:induction false} PrefixSize<T>(s: seq<T>, some: set<T>)
    requires forall x | x in some :: x in s
    ensures |some| <= |s|
  {
    if s == [] {
      assert some == {};
    } else {
      var last := s[|s| - 1];
      PrefixSize(s[..|s| - 1], some - {last});
      assert some <= (some - {last}) + {last};
      if last in some {
        assert some == (some - {last}) + {last};
      } else {
        assert some == some - {last};
      }
    }
  }

  lemma {:induction false} DistinctSize<T(!new)>(s: seq<T>, all: set<T>)
    requires Enumerates(s, all)
    ensures |s| == |all|
  {
    if s == [] {
      assert all == {};
    } else {
      var last := s[|s| - 1];
      var front := s[..|s| - 1];
      assert forall i | 0 <= i < |front| :: front[i] == s[i];
      assert s == front + [last];
      DistinctSize(front, all - {last});
    }
  }

  // The keys of an ordered map, ascending.
  method InOrder(all: set<Bytes>) returns (keys: seq<Bytes>)
    ensures Ascending(keys) && Enumerates(keys, all)
  {
    var rest := all;
    keys := [];
    while rest != {}
      invariant rest <= all && Ascending(keys)
      invariant forall k :: k in keys <==> k in all && k !in rest
      decreases rest
    {
      var key :| key in rest;
      InsertedAscends(keys, key);
      keys := Inserted(keys, key);
      rest := rest - {key};
    }
    AscendingIsDistinct(keys);
  }

  // The keys of a hash map, in whatever order.
  method InSomeOrder(all: set<Bytes>) returns (keys: seq<Bytes>)
    ensures Enumerates(keys, all)
  {
    var rest := all;
    keys := [];
    while rest != {}
      invariant rest <= all && Distinct(keys)
      invariant forall k :: k in keys <==> k in all && k !in rest
      decreases rest
    {
      var key :| key in rest;
      keys := keys + [key];
      rest := rest - {key};
    }
  }
}
