/**
 * The cart's line key: an item id together with the selected specifications in a canonical form,
 * specification names in ascending order and the choices of a multi-choice specification in
 * ascending order, so that the same selection always yields the same key.
 */
module MenuSpecKey {

  /** A selected specification value: one option, or several for a multi-choice specification. */
  datatype SpecValue = Single(option: string) | Multi(options: seq<string>)

  /** One selected specification: its name and the chosen value. */
  datatype SpecEntry = SpecEntry(name: string, value: SpecValue)

  /** A selection as sent by the page: an object, so its specification names are distinct. */
  type Specs = seq<SpecEntry>

  /** The canonical key of a cart line. */
  datatype SpecKey = SpecKey(itemId: int, specs: seq<SpecEntry>)

  // ---------------------------------------------------------------------------------------------
  // String order: the default comparison of the sort, character by character, a prefix first.

  predicate LessEq(a: string, b: string)
    decreases |a|
  {
    |a| == 0 || (|b| > 0 && (a[0] < b[0] || (a[0] == b[0] && LessEq(a[1..], b[1..]))))
  }

  lemma {:induction false} LessEqReflexive(a: string)
    ensures LessEq(a, a)
    decreases |a|
  {
    if |a| > 0 {
      LessEqReflexive(a[1..]);
    }
  }

  lemma {:induction false} LessEqTotal(a: string, b: string)
    ensures LessEq(a, b) || LessEq(b, a)
    decreases |a|
  {
    if |a| > 0 && |b| > 0 && a[0] == b[0] {
      LessEqTotal(a[1..], b[1..]);
    }
  }

  lemma {:induction false} LessEqAntisymmetric(a: string, b: string)
    requires LessEq(a, b) && LessEq(b, a)
    ensures a == b
    decreases |a|
  {
    if |a| > 0 {
      LessEqAntisymmetric(a[1..], b[1..]);
      assert a == [a[0]] + a[1..] && b == [b[0]] + b[1..];
    }
  }

  lemma {:induction false} LessEqTransitive(a: string, b: string, c: string)
    requires LessEq(a, b) && LessEq(b, c)
    ensures LessEq(a, c)
    decreases |a|
  {
    if |a| > 0 && a[0] == b[0] && b[0] == c[0] {
      LessEqTransitive(a[1..], b[1..], c[1..]);
    }
  }

  // ---------------------------------------------------------------------------------------------
  // Sorting by a string key.

  predicate SortedBy<T>(s: seq<T>, key: T -> string)
  {
    forall i, j :: 0 <= i < j < |s| ==> LessEq(key(s[i]), key(s[j]))
  }

  function Insert<T>(x: T, s: seq<T>, key: T -> string): seq<T>
    decreases |s|
  {
    if s == [] then [x]
    else if LessEq(key(x), key(s[0])) then [x] + s
    else [s[0]] + Insert(x, s[1..], key)
  }

  /** Insertion sort: the reference for the engine's stable sort by key. */
  function SortBy<T>(s: seq<T>, key: T -> string): seq<T>
    decreases |s|
  {
    if s == [] then [] else Insert(s[0], SortBy(s[1..], key), key)
  }

  lemma {:induction false} InsertKeeps<T>(x: T, s: seq<T>, key: T -> string)
    ensures multiset(Insert(x, s, key)) == multiset(s) + multiset{x}
    ensures SortedBy(s, key) ==> SortedBy(Insert(x, s, key), key)
    decreases |s|
  {
    if s != [] {
      assert s == [s[0]] + s[1..];
      if !LessEq(key(x), key(s[0])) {
        InsertKeeps(x, s[1..], key);
        if SortedBy(s, key) {
          InsertBehind(x, s, key);
        }
      } else if SortedBy(s, key) {
        var r := Insert(x, s, key);
        forall i, j | 0 <= i < j < |r|
          ensures LessEq(key(r[i]), key(r[j]))
        {
          if i == 0 && j > 1 {
            LessEqTransitive(key(x), key(s[0]), key(r[j]));
          }
        }
      }
    }
  }

  /** Inserting behind the first element: the first element stays least, so the order holds. */
  lemma InsertBehind<T>(x: T, s: seq<T>, key: T -> string)
    requires s != [] && !LessEq(key(x), key(s[0])) && SortedBy(s, key)
    requires multiset(Insert(x, s[1..], key)) == multiset(s[1..]) + multiset{x}
    requires SortedBy(Insert(x, s[1..], key), key)
    ensures SortedBy(Insert(x, s, key), key)
  {
    LessEqTotal(key(x), key(s[0]));
    var r := Insert(x, s, key);
    forall i, j | 0 <= i < j < |r|
      ensures LessEq(key(r[i]), key(r[j]))
    {
      if i == 0 {
        assert r[j] in multiset(s[1..]) + multiset{x};
        if r[j] != x {
          var k :| 0 <= k < |s[1..]| && s[1..][k] == r[j];
          assert s[k + 1] == r[j];
        }
      }
    }
  }

  /** Sorting rearranges: the result holds the same elements, in key order. */
  lemma {:induction false} SortByKeeps<T>(s: seq<T>, key: T -> string)
    ensures multiset(SortBy(s, key)) == multiset(s)
    ensures SortedBy(SortBy(s, key), key)
    decreases |s|
  {
    if s != [] {
      SortByKeeps(s[1..], key);
      InsertKeeps(s[0], SortBy(s[1..], key), key);
      assert s == [s[0]] + s[1..];
    }
  }

  /** Elements that share a key are equal: the key tells the elements of the collection apart. */
  ghost predicate KeyInjective<T>(m: multiset<T>, key: T -> string)
  {
    forall x, y :: x in m && y in m && key(x) == key(y) ==> x == y
  }

  /** The first element of a sequence in key order has the least key. */
  lemma FirstIsLeast<T>(a: seq<T>, key: T -> string, x: T)
    requires SortedBy(a, key) && x in a
    ensures LessEq(key(a[0]), key(x))
  {
    var i :| 0 <= i < |a| && a[i] == x;
    if i == 0 {
      LessEqReflexive(key(x));
    }
  }

  /** There is only one way to list a collection in key order when the key tells its elements apart. */
  lemma {:induction false} SortedUnique<T>(a: seq<T>, b: seq<T>, key: T -> string)
    requires SortedBy(a, key) && SortedBy(b, key)
    requires multiset(a) == multiset(b) && KeyInjective(multiset(a), key)
    ensures a == b
    decreases |a|
  {
    if a != [] {
      assert a[0] in multiset(b) && b[0] in multiset(a);
      FirstIsLeast(a, key, b[0]);
      FirstIsLeast(b, key, a[0]);
      LessEqAntisymmetric(key(a[0]), key(b[0]));
      assert a[0] == b[0];
      DropFirst(a, b, key);
      SortedUnique(a[1..], b[1..], key);
      assert a == [a[0]] + a[1..] && b == [b[0]] + b[1..];
    }
  }

  /** Removing a shared first element keeps both sequences sorted, alike and told apart by the key. */
  lemma DropFirst<T>(a: seq<T>, b: seq<T>, key: T -> string)
    requires a != [] && b != [] && a[0] == b[0]
    requires SortedBy(a, key) && SortedBy(b, key)
    requires multiset(a) == multiset(b) && KeyInjective(multiset(a), key)
    ensures SortedBy(a[1..], key) && SortedBy(b[1..], key)
    ensures multiset(a[1..]) == multiset(b[1..]) && KeyInjective(multiset(a[1..]), key)
  {
    assert a == [a[0]] + a[1..] && b == [b[0]] + b[1..];
    assert multiset(a[1..]) <= multiset(a);
  }

  // ---------------------------------------------------------------------------------------------
  // The canonical selection.

  function Identity(s: string): string
  {
    s
  }

  function NameOf(e: SpecEntry): string
  {
    e.name
  }

  /** A multi-choice value with its choices in ascending order; a single choice as it is. */
  function NormalValue(v: SpecValue): SpecValue
  {
    match v
    case Single(o) => Single(o)
    case Multi(os) => Multi(SortBy(os, Identity))
  }

  /** Every entry of the selection with its value normalised, in the selection's order. */
  function NormalEntries(specs: Specs): (r: seq<SpecEntry>)
    ensures |r| == |specs|
  {
    seq(|specs|, i requires 0 <= i < |specs| => SpecEntry(specs[i].name, NormalValue(specs[i].value)))
  }

  /** The specification names of a selection are distinct, as the names of an object's properties are. */
  predicate DistinctNames(specs: Specs)
  {
    forall i, j :: 0 <= i < j < |specs| ==> specs[i].name != specs[j].name
  }

  /** The selection in canonical form: names ascending, each multi-choice value's choices ascending. */
  function Canonical(specs: Specs): Specs
  {
    SortBy(NormalEntries(specs), NameOf)
  }

  /** The line key of an item with a selection. */
  function KeyOf(itemId: int, specs: Specs): (k: SpecKey)
    ensures k.itemId == itemId
  {
    SpecKey(itemId, Canonical(specs))
  }

  /** Two values are the same choice: the same single option, or the same choices in any order. */
  predicate SameChoice(v: SpecValue, w: SpecValue)
  {
    match v
    case Single(o) => w == Single(o)
    case Multi(os) => w.Multi? && multiset(os) == multiset(w.options)
  }

  /** Two selections list the same names with the same choices: the entries may come in another order. */
  ghost predicate SameSelection(s1: Specs, s2: Specs)
  {
    multiset(NormalEntries(s1)) == multiset(NormalEntries(s2))
  }

  /** Same choices in any order normalise alike. */
  lemma NormalValueOfSameChoice(v: SpecValue, w: SpecValue)
    requires SameChoice(v, w)
    ensures NormalValue(v) == NormalValue(w)
  {
    if v.Multi? {
      SortByKeeps(v.options, Identity);
      SortByKeeps(w.options, Identity);
      SortedUnique(SortBy(v.options, Identity), SortBy(w.options, Identity), Identity);
    }
  }

  lemma {:induction false} NormalEntriesDistinct(specs: Specs)
    requires DistinctNames(specs)
    ensures KeyInjective(multiset(NormalEntries(specs)), NameOf)
  {
    var n := NormalEntries(specs);
    forall x, y | x in multiset(n) && y in multiset(n) && NameOf(x) == NameOf(y)
      ensures x == y
    {
      var i :| 0 <= i < |n| && n[i] == x;
      var j :| 0 <= j < |n| && n[j] == y;
      assert i == j;
    }
  }

  /**
   * The key identifies the selection: two lines share a key exactly when they are for the same item
   * with the same choices, whatever order the names and the multi-choice options were picked in.
   */
  lemma KeyIdentifiesSelection(id1: int, s1: Specs, id2: int, s2: Specs)
    requires DistinctNames(s1) && DistinctNames(s2)
    ensures KeyOf(id1, s1) == KeyOf(id2, s2) <==> id1 == id2 && SameSelection(s1, s2)
  {
    SortByKeeps(NormalEntries(s1), NameOf);
    SortByKeeps(NormalEntries(s2), NameOf);
    if id1 == id2 && SameSelection(s1, s2) {
      NormalEntriesDistinct(s1);
      SortedUnique(Canonical(s1), Canonical(s2), NameOf);
    }
  }

  /** Listing the same entries in another order, or the choices of any entry in another order, keeps the key. */
  lemma KeyIgnoresOrder(itemId: int, s1: Specs, s2: Specs)
    requires DistinctNames(s1) && DistinctNames(s2)
    requires |s1| == |s2|
    requires forall i :: 0 <= i < |s1| ==> s1[i].name == s2[i].name && SameChoice(s1[i].value, s2[i].value)
    ensures KeyOf(itemId, s1) == KeyOf(itemId, s2)
  {
    forall i | 0 <= i < |s1|
      ensures NormalEntries(s1)[i] == NormalEntries(s2)[i]
    {
      NormalValueOfSameChoice(s1[i].value, s2[i].value);
    }
    assert NormalEntries(s1) == NormalEntries(s2);
  }

  /** Permuting the entries of a selection keeps the key. */
  lemma KeyIgnoresEntryOrder(itemId: int, s1: Specs, s2: Specs)
    requires DistinctNames(s1) && DistinctNames(s2)
    requires multiset(s1) == multiset(s2)
    ensures KeyOf(itemId, s1) == KeyOf(itemId, s2)
  {
    NormalEntriesMultiset(s1, s2);
    KeyIdentifiesSelection(itemId, s1, itemId, s2);
  }

  lemma {:induction false} NormalEntriesMultiset(s1: Specs, s2: Specs)
    requires multiset(s1) == multiset(s2)
    ensures multiset(NormalEntries(s1)) == multiset(NormalEntries(s2))
    decreases |s1|
  {
    if s1 != [] {
      var e := s1[0];
      assert e in multiset(s2);
      var k :| 0 <= k < |s2| && s2[k] == e;
      var rest2 := s2[..k] + s2[k + 1..];
      RemoveAt(s1, s2, k);
      NormalEntriesMultiset(s1[1..], rest2);
      NormalEntriesSplit(s2[..k], [e], s2[k + 1..]);
      NormalEntriesSplit(s2[..k], [], s2[k + 1..]);
      NormalEntriesSplit([e], s1[1..], []);
      assert s2[..k] + [e] + s2[k + 1..] == s2;
      assert s2[..k] + [] + s2[k + 1..] == rest2;
      assert [e] + s1[1..] + [] == s1;
      var front, back, mid := NormalEntries(s2[..k]), NormalEntries(s2[k + 1..]), NormalEntries([e]);
      calc {
        multiset(NormalEntries(s1));
        multiset(mid + NormalEntries(s1[1..]) + NormalEntries([]));
        multiset(mid) + multiset(NormalEntries(rest2));
        multiset(mid) + multiset(front + NormalEntries([]) + back);
        multiset(front + mid + back);
        multiset(NormalEntries(s2));
      }
    }
  }

  /** Taking the first element off one sequence and the same element off another keeps their multisets equal. */
  lemma RemoveAt<T>(s1: seq<T>, s2: seq<T>, k: int)
    requires s1 != [] && 0 <= k < |s2| && s2[k] == s1[0] && multiset(s1) == multiset(s2)
    ensures multiset(s1[1..]) == multiset(s2[..k] + s2[k + 1..])
  {
    assert s1 == [s1[0]] + s1[1..];
    assert s2 == s2[..k] + [s2[k]] + s2[k + 1..];
    calc {
      multiset(s1[1..]);
      multiset(s1) - multiset{s1[0]};
      multiset(s2) - multiset{s2[k]};
      multiset(s2[..k]) + multiset(s2[k + 1..]);
      multiset(s2[..k] + s2[k + 1..]);
    }
  }

  lemma NormalEntriesSplit(a: Specs, b: Specs, c: Specs)
    ensures NormalEntries(a + b + c) == NormalEntries(a) + NormalEntries(b) + NormalEntries(c)
  {
    var s := a + b + c;
    var l := NormalEntries(a) + NormalEntries(b) + NormalEntries(c);
    assert |NormalEntries(s)| == |l|;
    forall i | 0 <= i < |s|
      ensures NormalEntries(s)[i] == l[i]
    {
      if i < |a| {
      } else if i < |a| + |b| {
        assert s[i] == b[i - |a|];
      } else {
        assert s[i] == c[i - |a| - |b|];
      }
    }
  }
}
