/** The order of JSON member names: by UTF-16 code units, section 3.2.3 of RFC 8785
    (compareUTF16 in runtimes/go/jcs.go). */
module Utf16 {

  /** The code units of one Unicode scalar value: itself, or a surrogate pair. */
  function Units(c: char): seq<int> {
    var v := c as int;
    if v < 0x10000 then [v] else [0xD800 + (v - 0x10000) / 0x400, 0xDC00 + (v - 0x10000) % 0x400]
  }

  function Encode(s: string): seq<int> {
    if s == "" then [] else Units(s[0]) + Encode(s[1..])
  }

  /** slices.Compare. */
  function Compare(a: seq<int>, b: seq<int>): int {
    if a == [] && b == [] then 0
    else if a == [] then -1
    else if b == [] then 1
    else if a[0] < b[0] then -1
    else if a[0] > b[0] then 1
    else Compare(a[1..], b[1..])
  }

  function CompareUtf16(a: string, b: string): int {
    Compare(Encode(a), Encode(b))
  }

  predicate Less(a: string, b: string) {
    CompareUtf16(a, b) < 0
  }

  lemma {:induction false} UnitsDecode(c: char, d: char, u: seq<int>, v: seq<int>)
    requires Units(c) + u == Units(d) + v
    ensures c == d && u == v
  {
    var x, y := Units(c), Units(d);
    assert (x + u)[0] == x[0] && (y + v)[0] == y[0];
    assert |x| == |y|;
    assert (x + u)[..|x|] == x && (y + v)[..|x|] == y;
    assert (x + u)[|x|..] == u && (y + v)[|x|..] == v;
  }

  lemma {:induction false} EncodeInjective(a: string, b: string)
    requires Encode(a) == Encode(b)
    ensures a == b
  {
    hide Units;
    if a != "" && b != "" {
      UnitsDecode(a[0], b[0], Encode(a[1..]), Encode(b[1..]));
      EncodeInjective(a[1..], b[1..]);
    } else if a != "" {
      NonemptyUnits(a[0]);
    } else if b != "" {
      NonemptyUnits(b[0]);
    }
  }

  lemma {:induction false} NonemptyUnits(c: char)
    ensures Units(c) != []
  {
  }

  lemma {:induction false} CompareLaws(a: seq<int>, b: seq<int>)
    ensures (Compare(a, b) == 0 <==> a == b) && Compare(b, a) == 0 - Compare(a, b)
  {
    if a != [] && b != [] && a[0] == b[0] {
      CompareLaws(a[1..], b[1..]);
      assert a == [a[0]] + a[1..] && b == [b[0]] + b[1..];
    }
  }

  lemma {:induction false} CompareTransitive(a: seq<int>, b: seq<int>, c: seq<int>)
    requires Compare(a, b) < 0 && Compare(b, c) < 0
    ensures Compare(a, c) < 0
  {
    if a != [] && b != [] && c != [] && a[0] == b[0] == c[0] {
      CompareTransitive(a[1..], b[1..], c[1..]);
    }
  }

  /** The order is total: exactly one of less, equal and greater. */
  lemma {:induction false} Total(a: string, b: string)
    ensures (CompareUtf16(a, b) == 0 <==> a == b) && (Less(a, b) || a == b || Less(b, a)) && !(Less(a, b) && Less(b, a))
  {
    hide Encode, Compare;
    CompareLaws(Encode(a), Encode(b));
    if CompareUtf16(a, b) == 0 {
      EncodeInjective(a, b);
    }
  }

  lemma {:induction false} Transitive(a: string, b: string, c: string)
    requires Less(a, b) && Less(b, c)
    ensures Less(a, c)
  {
    hide Encode, Compare;
    CompareTransitive(Encode(a), Encode(b), Encode(c));
  }

  /** It is not the order of scalar values: a surrogate pair sorts before U+E000 to U+FFFF. */
  lemma {:induction false} NotScalarOrder()
    ensures '\U{FB33}' < '\U{1F600}' && Less("\U{1F600}", "\U{FB33}")
  {
    var a, b := "\U{1F600}", "\U{FB33}";
    assert a[1..] == "" && b[1..] == "";
    assert Encode(a) == Units(a[0]) + [] && Encode(b) == Units(b[0]) + [];
    assert Encode(a)[0] == 0xD83D && Encode(b)[0] == 0xFB33;
  }

  /** A pair of surrogates stands for the scalar value above U+FFFF that UTF-16 assigns to it. */
  lemma {:induction false} UnitsMean(c: char)
    ensures var u := Units(c);
            if c as int <= 0xFFFF then u == [c as int]
            else |u| == 2 && 0xD800 <= u[0] <= 0xDBFF && 0xDC00 <= u[1] <= 0xDFFF &&
                 0x10000 + (u[0] - 0xD800) * 0x400 + (u[1] - 0xDC00) == c as int
  {
  }

  /** The first code unit in which two encodings differ is smaller in the first. */
  predicate SmallerAt(a: seq<int>, b: seq<int>, i: nat) {
    i < |a| && i < |b| && a[..i] == b[..i] && a[i] < b[i]
  }

  lemma {:induction false} SmallerLater(a: seq<int>, b: seq<int>, i: nat)
    requires a != [] && b != [] && a[0] == b[0]
    ensures SmallerAt(a, b, i + 1) <==> SmallerAt(a[1..], b[1..], i)
  {
    if i + 1 <= |a| && i + 1 <= |b| {
      assert a[..i + 1] == [a[0]] + a[1..][..i] && b[..i + 1] == [b[0]] + b[1..][..i];
      assert a[1..][..i] == a[..i + 1][1..] && b[1..][..i] == b[..i + 1][1..];
    }
  }

  lemma {:induction false} SmallerFirst(a: seq<int>, b: seq<int>, i: nat)
    requires a != [] && b != []
    ensures i == 0 ==> (SmallerAt(a, b, i) <==> a[0] < b[0])
    ensures i > 0 && SmallerAt(a, b, i) ==> a[0] == b[0]
  {
    if 0 < i < |a| && i < |b| {
      assert a[..i][0] == a[0] && b[..i][0] == b[0];
    } else if i == 0 {
      assert a[..0] == b[..0];
    }
  }

  lemma {:induction false} PrefixLater(a: seq<int>, b: seq<int>)
    requires a != [] && b != []
    ensures a < b <==> a[0] == b[0] && a[1..] < b[1..]
  {
    assert a == [a[0]] + a[1..] && b == [b[0]] + b[1..];
  }

  lemma {:induction false} CompareIff(a: seq<int>, b: seq<int>)
    ensures Compare(a, b) < 0 <==> a < b || exists i :: SmallerAt(a, b, i)
  {
    hide SmallerAt;
    if a != [] && b != [] {
      PrefixLater(a, b);
      SmallerFirst(a, b, 0);
      forall i: nat | i > 0 && SmallerAt(a, b, i) ensures a[0] == b[0] && SmallerAt(a[1..], b[1..], i - 1) {
        SmallerFirst(a, b, i);
        SmallerLater(a, b, i - 1);
      }
      if a[0] == b[0] {
        CompareIff(a[1..], b[1..]);
        if i :| SmallerAt(a[1..], b[1..], i) {
          SmallerLater(a, b, i);
        }
      }
    } else {
      NothingSmaller(a, b);
    }
  }

  lemma {:induction false} NothingSmaller(a: seq<int>, b: seq<int>)
    requires a == [] || b == []
    ensures forall i :: !SmallerAt(a, b, i)
  {
  }

  /** One name is before another exactly when its code units are a proper prefix of the other's, or
      smaller where the two first differ. */
  lemma {:induction false} LessIff(a: string, b: string)
    ensures Less(a, b) <==> Encode(a) < Encode(b) || exists i :: SmallerAt(Encode(a), Encode(b), i)
  {
    hide Encode, Compare, SmallerAt;
    CompareIff(Encode(a), Encode(b));
  }

  // ----- Sorting -----

  predicate Ascending(keys: seq<string>) {
    forall i, j :: 0 <= i < j < |keys| ==> Less(keys[i], keys[j])
  }

  ghost predicate Lists(keys: seq<string>, names: set<string>) {
    Ascending(keys) && forall k :: k in keys <==> k in names
  }

  /** Insertion into an ascending list. */
  function Insert(k: string, keys: seq<string>): seq<string> {
    if keys == [] || Less(k, keys[0]) then [k] + keys
    else if keys[0] == k then keys
    else [keys[0]] + Insert(k, keys[1..])
  }

  lemma {:induction false} InsertAscends(k: string, keys: seq<string>)
    requires Ascending(keys)
    ensures Ascending(Insert(k, keys)) && forall x :: x in Insert(k, keys) <==> x == k || x in keys
  {
    hide Less;
    if keys != [] {
      Total(k, keys[0]);
      if Less(k, keys[0]) {
        forall j | 0 <= j < |keys| ensures Less(k, keys[j]) {
          if j > 0 {
            Transitive(k, keys[0], keys[j]);
          }
        }
      } else if keys[0] != k {
        var rest := Insert(k, keys[1..]);
        InsertAscends(k, keys[1..]);
        assert forall x :: x in keys <==> x == keys[0] || x in keys[1..];
        forall j | 0 <= j < |rest| ensures Less(keys[0], rest[j]) {
          assert rest[j] in rest;
        }
      }
    }
  }

  lemma {:induction false} EmptyAscends()
    ensures Ascending([])
  {
  }

  /** A set of names has one ascending list, whatever order it is collected in. */
  lemma {:induction false} AscendingUnique(a: seq<string>, b: seq<string>)
    requires Ascending(a) && Ascending(b) && forall k :: k in a <==> k in b
    ensures a == b
  {
    hide Less;
    assert b != [] ==> b[0] in b;
    if a != [] {
      assert a[0] in b;
      assert b != [] && b[0] in a;
      LeastFirst(a, b[0]);
      LeastFirst(b, a[0]);
      Total(a[0], b[0]);
      assert a[0] == b[0];
      forall k ensures k in a[1..] <==> k in b[1..] {
        NotAgain(a);
        NotAgain(b);
      }
      AscendingUnique(a[1..], b[1..]);
      assert a == [a[0]] + a[1..] && b == [b[0]] + b[1..];
    }
  }

  lemma {:induction false} LeastFirst(a: seq<string>, k: string)
    requires Ascending(a) && k in a
    ensures a[0] == k || Less(a[0], k)
  {
    hide Less;
  }

  lemma {:induction false} NotAgain(a: seq<string>)
    requires Ascending(a) && a != []
    ensures a[0] !in a[1..] && forall k :: k in a <==> k == a[0] || k in a[1..]
  {
    hide Less;
    if a[0] in a[1..] {
      Total(a[0], a[0]);
    }
  }

  lemma {:induction false} SortedExists(names: set<string>)
    ensures exists keys :: Lists(keys, names)
  {
    hide Ascending;
    if names == {} {
      EmptyAscends();
      assert Lists([], names);
    } else {
      var k :| k in names;
      SortedExists(names - {k});
      var keys :| Lists(keys, names - {k});
      InsertAscends(k, keys);
      assert Lists(Insert(k, keys), names);
    }
  }

  /** The names in ascending order. */
  ghost function Sorted(names: set<string>): (keys: seq<string>)
    ensures Lists(keys, names)
  {
    SortedExists(names);
    var keys :| Lists(keys, names);
    keys
  }
}
