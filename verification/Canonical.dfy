/** Canonical device facts: when they are independent of the order an agent reports lists in. */
module Canonical {
  import opened Text

  // ---- Ordering rows by their key texts -----------------------------------------------

  type Key = seq<string>

  /** Tuples compare element by element, a proper prefix first. */
  function Compare(a: Key, b: Key): int {
    if a == [] && b == [] then 0
    else if a == [] then -1
    else if b == [] then 1
    else if a[0] != b[0] then Order(a[0], b[0])
    else Compare(a[1..], b[1..])
  }

  lemma {:induction false} CompareZero(a: Key, b: Key)
    ensures Compare(a, b) == 0 <==> a == b
  {
    if a != [] && b != [] {
      OrderZero(a[0], b[0]);
      CompareZero(a[1..], b[1..]);
      assert a == [a[0]] + a[1..] && b == [b[0]] + b[1..];
    }
  }

  lemma {:induction false} CompareFlip(a: Key, b: Key)
    ensures Compare(a, b) == -Compare(b, a)
  {
    if a != [] && b != [] {
      OrderFlip(a[0], b[0]);
      CompareFlip(a[1..], b[1..]);
    }
  }

  lemma {:induction false} CompareTransitive(a: Key, b: Key, c: Key)
    requires Compare(a, b) <= 0 && Compare(b, c) <= 0
    ensures Compare(a, c) <= 0
  {
    if a != [] && b != [] && c != [] {
      OrderZero(a[0], b[0]);
      OrderZero(b[0], c[0]);
      if a[0] == b[0] == c[0] {
        CompareTransitive(a[1..], b[1..], c[1..]);
      } else if Order(a[0], b[0]) <= 0 && Order(b[0], c[0]) <= 0 {
        OrderTransitive(a[0], b[0], c[0]);
        OrderZero(a[0], c[0]);
      }
    }
  }

  // ---- Stable sorting -----------------------------------------------------------------

  /** Insert before the first item with a greater key, hence after its equals. */
  function Insert<T>(x: T, s: seq<T>, key: T -> Key): seq<T> {
    if s == [] then [x]
    else if Compare(key(x), key(s[0])) < 0 then [x] + s
    else [s[0]] + Insert(x, s[1..], key)
  }

  function Sort<T>(s: seq<T>, key: T -> Key): seq<T> {
    if s == [] then [] else Insert(s[|s| - 1], Sort(s[..|s| - 1], key), key)
  }

  ghost predicate Sorted<T>(s: seq<T>, key: T -> Key) {
    forall i, j | 0 <= i < j < |s| :: Compare(key(s[i]), key(s[j])) <= 0
  }

  lemma {:induction false} InsertCounts<T>(x: T, s: seq<T>, key: T -> Key)
    ensures multiset(Insert(x, s, key)) == multiset(s) + multiset{x}
  {
    if s != [] && Compare(key(x), key(s[0])) >= 0 {
      InsertCounts(x, s[1..], key);
      assert s == [s[0]] + s[1..];
    }
  }

  lemma PrependSorted<T>(x: T, s: seq<T>, key: T -> Key)
    requires Sorted(s, key) && forall j | 0 <= j < |s| :: Compare(key(x), key(s[j])) <= 0
    ensures Sorted([x] + s, key)
  {
  }

  lemma {:induction false} InsertSorted<T>(x: T, s: seq<T>, key: T -> Key)
    requires Sorted(s, key)
    ensures Sorted(Insert(x, s, key), key)
  {
    if s == [] {
    } else if Compare(key(x), key(s[0])) < 0 {
      forall j | 0 <= j < |s| ensures Compare(key(x), key(s[j])) <= 0 {
        if j > 0 { CompareTransitive(key(x), key(s[0]), key(s[j])); }
      }
      PrependSorted(x, s, key);
    } else {
      var (tail, put) := (s[1..], Insert(x, s[1..], key));
      InsertSorted(x, tail, key);
      InsertCounts(x, tail, key);
      CompareFlip(key(x), key(s[0]));
      forall j | 0 <= j < |put| ensures Compare(key(s[0]), key(put[j])) <= 0 {
        assert put[j] in multiset(tail) + multiset{x};
        if put[j] != x {
          var i :| 0 <= i < |tail| && tail[i] == put[j];
          assert s[i + 1] == put[j];
        }
      }
      PrependSorted(s[0], put, key);
    }
  }

  lemma {:induction false} SortSorted<T>(s: seq<T>, key: T -> Key)
    ensures Sorted(Sort(s, key), key) && multiset(Sort(s, key)) == multiset(s)
  {
    if s != [] {
      var (before, x) := (s[..|s| - 1], s[|s| - 1]);
      SortSorted(before, key);
      InsertSorted(x, Sort(before, key), key);
      InsertCounts(x, Sort(before, key), key);
      assert s == before + [x];
    }
  }

  /** No two different items of `s` have the same key. */
  ghost predicate NoTies<T(!new)>(s: seq<T>, key: T -> Key) {
    forall x, y | x in s && y in s && key(x) == key(y) :: x == y
  }

  lemma SameTails<T>(s: seq<T>, t: seq<T>)
    requires multiset(s) == multiset(t) && s != [] && t != [] && s[0] == t[0]
    ensures multiset(s[1..]) == multiset(t[1..])
  {
    assert s == [s[0]] + s[1..] && t == [t[0]] + t[1..];
    assert multiset(s[1..]) == multiset(s) - multiset{s[0]};
    assert multiset(t[1..]) == multiset(t) - multiset{t[0]};
  }

  lemma SameEmptiness<T>(s: seq<T>, t: seq<T>)
    requires multiset(s) == multiset(t)
    ensures |s| == |t|
  {
    assert |multiset(s)| == |s| && |multiset(t)| == |t|;
  }

  lemma {:induction false} SortedUnique<T(!new)>(s: seq<T>, t: seq<T>, key: T -> Key)
    requires Sorted(s, key) && Sorted(t, key) && multiset(s) == multiset(t) && NoTies(s, key)
    ensures s == t
  {
    SameEmptiness(s, t);
    if s != [] {
      HeadsAgree(s, t, key);
      SameTails(s, t);
      forall x | x in s[1..] ensures x in s {}
      SortedUnique(s[1..], t[1..], key);
      assert s == [s[0]] + s[1..] && t == [t[0]] + t[1..];
    }
  }

  lemma HeadsAgree<T(!new)>(s: seq<T>, t: seq<T>, key: T -> Key)
    requires Sorted(s, key) && Sorted(t, key) && multiset(s) == multiset(t) && NoTies(s, key) && s != [] && t != []
    ensures s[0] == t[0]
  {
    assert s[0] in multiset(t) && t[0] in multiset(s);
    var i :| 0 <= i < |t| && t[i] == s[0];
    var j :| 0 <= j < |s| && s[j] == t[0];
    CompareZero(key(s[0]), key(s[0]));
    assert Compare(key(t[0]), key(s[0])) <= 0;
    assert Compare(key(s[0]), key(t[0])) <= 0;
    CompareFlip(key(s[0]), key(t[0]));
    CompareZero(key(s[0]), key(t[0]));
  }

  ghost predicate IgnoresOrder<T(!new)>(s: seq<T>, key: T -> Key) {
    forall t: seq<T> :: multiset(t) == multiset(s) ==> Sort(t, key) == Sort(s, key)
  }

  /** A sorted list is the same for every order of its input if no two different items tie. */
  lemma SortIgnoresOrder<T(!new)>(s: seq<T>, key: T -> Key)
    requires NoTies(s, key)
    ensures IgnoresOrder(s, key)
  {
    forall t: seq<T> | multiset(t) == multiset(s) ensures Sort(t, key) == Sort(s, key) {
      SortSorted(s, key);
      SortSorted(t, key);
      assert forall x :: x in Sort(s, key) ==> x in s by {
        assert forall x :: x in Sort(s, key) ==> x in multiset(s);
      }
      SortedUnique(Sort(s, key), Sort(t, key), key);
    }
  }

  function One<T>(x: T, key: T -> Key, k: Key): seq<T> { if key(x) == k then [x] else [] }

  /** The items with key `k`, in their order. */
  function Kept<T>(s: seq<T>, key: T -> Key, k: Key): seq<T> {
    if s == [] then [] else One(s[0], key, k) + Kept(s[1..], key, k)
  }

  lemma {:induction false} KeptHead<T>(x: T, s: seq<T>, key: T -> Key, k: Key)
    ensures Kept([x] + s, key, k) == One(x, key, k) + Kept(s, key, k)
  {
    assert ([x] + s)[1..] == s;
  }

  lemma Regroup<T>(a: seq<T>, b: seq<T>, c: seq<T>)
    ensures (a + b) + c == a + (b + c)
  {
  }

  lemma {:induction false} KeptLast<T>(s: seq<T>, x: T, key: T -> Key, k: Key)
    ensures Kept(s + [x], key, k) == Kept(s, key, k) + One(x, key, k)
  {
    if s == [] {
      assert s + [x] == [x];
      assert [x][1..] == [];
    } else {
      var tail := s[1..];
      assert (s + [x])[1..] == tail + [x];
      KeptLast(tail, x, key, k);
      Regroup(One(s[0], key, k), Kept(tail, key, k), One(x, key, k));
    }
  }

  lemma {:induction false} KeptNothing<T>(s: seq<T>, key: T -> Key, k: Key)
    requires forall i | 0 <= i < |s| :: key(s[i]) != k
    ensures Kept(s, key, k) == []
  {
    if s != [] { KeptNothing(s[1..], key, k); }
  }

  lemma NothingBelow<T>(x: T, s: seq<T>, key: T -> Key)
    requires Sorted(s, key) && s != [] && Compare(key(x), key(s[0])) < 0
    ensures Kept(s, key, key(x)) == []
  {
    forall i | 0 <= i < |s| ensures key(s[i]) != key(x) {
      CompareFlip(key(x), key(s[0]));
      CompareZero(key(x), key(x));
    }
    KeptNothing(s, key, key(x));
  }

  lemma {:induction false} InsertKept<T>(x: T, s: seq<T>, key: T -> Key, k: Key)
    requires Sorted(s, key)
    ensures Kept(Insert(x, s, key), key, k) == Kept(s, key, k) + One(x, key, k)
  {
    if s == [] {
      KeptHead(x, [], key, k);
    } else if Compare(key(x), key(s[0])) < 0 {
      KeptHead(x, s, key, k);
      if key(x) == k { NothingBelow(x, s, key); }
    } else {
      var tail := s[1..];
      InsertKept(x, tail, key, k);
      KeptHead(s[0], Insert(x, tail, key), key, k);
      Regroup(One(s[0], key, k), Kept(tail, key, k), One(x, key, k));
    }
  }

  lemma SortLast<T>(before: seq<T>, x: T, key: T -> Key)
    ensures Sort(before + [x], key) == Insert(x, Sort(before, key), key)
  {
    assert (before + [x])[..|before|] == before;
  }

  lemma StableStep<T>(before: seq<T>, x: T, key: T -> Key, k: Key)
    requires Kept(Sort(before, key), key, k) == Kept(before, key, k)
    ensures Kept(Sort(before + [x], key), key, k) == Kept(before + [x], key, k)
  {
    SortLast(before, x, key);
    SortSorted(before, key);
    InsertKept(x, Sort(before, key), key, k);
    KeptLast(before, x, key, k);
  }

  /** Sorting is stable: items with equal keys keep the order they came in. */
  lemma {:induction false} SortIsStable<T>(s: seq<T>, key: T -> Key, k: Key)
    ensures Kept(Sort(s, key), key, k) == Kept(s, key, k)
  {
    if s != [] {
      var before := s[..|s| - 1];
      SortIsStable(before, key, k);
      StableStep(before, s[|s| - 1], key, k);
      assert s == before + [s[|s| - 1]];
    }
  }

  lemma Without<T>(s: seq<T>, k: nat)
    requires k < |s|
    ensures s == s[..k] + [s[k]] + s[k + 1..]
    ensures multiset(s[..k] + s[k + 1..]) == multiset(s) - multiset{s[k]}
  {
    assert s == s[..k] + [s[k]] + s[k + 1..];
  }

  lemma ItemFirst<T>(s: seq<T>, x: T) returns (rest: seq<T>)
    requires x in s
    ensures multiset(s) == multiset(rest) + multiset{x}
  {
    var i :| 0 <= i < |s| && s[i] == x;
    Without(s, i);
    rest := s[..i] + s[i + 1..];
  }

  /** Everything in `s` but two of its different items. */
  lemma PairFirst<T>(s: seq<T>, x: T, y: T) returns (rest: seq<T>)
    requires x in s && y in s && x != y
    ensures multiset(s) == multiset(rest) + multiset{y} + multiset{x}
  {
    var others := ItemFirst(s, x);
    assert y in multiset(s);
    rest := ItemFirst(others, y);
  }

  lemma PairCounts<T>(x: T, y: T, rest: seq<T>)
    ensures multiset([x, y] + rest) == multiset(rest) + multiset{y} + multiset{x}
  {
    assert multiset([x, y] + rest) == multiset([x, y]) + multiset(rest);
  }

  lemma TiesShow<T>(x: T, y: T, rest: seq<T>, key: T -> Key)
    requires x != y && key(x) == key(y)
    ensures Sort([x, y] + rest, key) != Sort([y, x] + rest, key)
  {
    var k := key(x);
    SortIsStable([x, y] + rest, key, k);
    SortIsStable([y, x] + rest, key, k);
    assert Kept([x, y] + rest, key, k)[0] == x;
    assert Kept([y, x] + rest, key, k)[0] == y;
  }

  lemma TiesOrderMatters<T(!new)>(s: seq<T>, x: T, y: T, key: T -> Key)
    requires x in s && y in s && key(x) == key(y) && x != y
    ensures !IgnoresOrder(s, key)
  {
    var rest := PairFirst(s, x, y);
    TiesShow(x, y, rest, key);
    PairCounts(x, y, rest);
    PairCounts(y, x, rest);
    var (t, u) := ([x, y] + rest, [y, x] + rest);
    assert multiset(t) == multiset(s) && multiset(u) == multiset(s);
    assert Sort(t, key) != Sort(u, key);
  }

  /** A sorted list is the same for every order of its input exactly when no two different items tie. */
  lemma OrderIgnoredExactlyWithoutTies<T(!new)>(s: seq<T>, key: T -> Key)
    ensures IgnoresOrder(s, key) <==> NoTies(s, key)
  {
    if NoTies(s, key) {
      SortIgnoresOrder(s, key);
    } else {
      var x, y :| x in s && y in s && key(x) == key(y) && x != y;
      TiesOrderMatters(s, x, y, key);
    }
  }

  // ---- Field values -------------------------------------------------------------------

  datatype Field = Null | Word(text: string) | Number(n: nat)

  /** The text a field sorts by; a missing value sorts like an empty text. */
  function KeyText(f: Field): string {
    match f case Null => "" case Word(t) => t case Number(n) => Decimal(n)
  }

  type Row = seq<Field>

  function RowKey(r: Row): Key {
    if r == [] then [] else [KeyText(r[0])] + RowKey(r[1..])
  }

  function SortedRows(rows: seq<Row>): seq<Row> { Sort(rows, RowKey) }

  /** A contract column holds texts or numbers, never both; a value may be missing. */
  predicate SameKind(f: Field, g: Field) { !(f.Word? && g.Number?) && !(f.Number? && g.Word?) }

  ghost predicate Typed(rows: seq<Row>) {
    forall r: Row, q: Row | r in rows && q in rows ::
      |r| == |q| && forall i | 0 <= i < |r| :: SameKind(r[i], q[i])
  }

  predicate Complete(r: Row) { forall i | 0 <= i < |r| :: r[i] != Null }

  /** One value is missing where the other is an empty text. */
  predicate BlankPair(f: Field, g: Field) { {f, g} == {Null, Word("")} }

  /** Two different rows that differ only in missing against empty texts. */
  predicate Twins(r: Row, q: Row) {
    r != q && |r| == |q| && forall i | 0 <= i < |r| :: r[i] == q[i] || BlankPair(r[i], q[i])
  }

  ghost predicate HasTwins(rows: seq<Row>) { exists r: Row, q: Row :: r in rows && q in rows && Twins(r, q) }

  lemma {:induction false} RowKeyAt(r: Row)
    ensures |RowKey(r)| == |r| && forall i | 0 <= i < |r| :: RowKey(r)[i] == KeyText(r[i])
  {
    if r != [] { RowKeyAt(r[1..]); }
  }

  lemma KeyTextTies(f: Field, g: Field)
    requires SameKind(f, g)
    ensures KeyText(f) == KeyText(g) <==> f == g || BlankPair(f, g)
  {
    if f.Number? && g.Number? {
      DecimalInjective(f.n, g.n);
    } else if f.Number? {
      DecimalLength(f.n);
    } else if g.Number? {
      DecimalLength(g.n);
    }
    if BlankPair(f, g) { assert f in {Null, Word("")} && g in {Null, Word("")}; }
  }

  lemma KeysTieExactlyForTwins(r: Row, q: Row)
    requires |r| == |q| && forall i | 0 <= i < |r| :: SameKind(r[i], q[i])
    ensures RowKey(r) == RowKey(q) <==> r == q || Twins(r, q)
  {
    RowKeyAt(r);
    RowKeyAt(q);
    forall i | 0 <= i < |r| ensures RowKey(r)[i] == RowKey(q)[i] <==> r[i] == q[i] || BlankPair(r[i], q[i]) {
      KeyTextTies(r[i], q[i]);
    }
  }

  lemma TiesExactlyWithTwins(rows: seq<Row>)
    requires Typed(rows)
    ensures NoTies(rows, RowKey) <==> !HasTwins(rows)
  {
    if HasTwins(rows) {
      var r: Row, q: Row :| r in rows && q in rows && Twins(r, q);
      KeysTieExactlyForTwins(r, q);
    }
    if !NoTies(rows, RowKey) {
      var r: Row, q: Row :| r in rows && q in rows && RowKey(r) == RowKey(q) && r != q;
      KeysTieExactlyForTwins(r, q);
    }
  }

  /** A contract-shaped list is canonical, whatever order the agent reports it in, exactly when it
      does not hold two rows that differ only in missing against empty texts. */
  lemma RowsIgnoreOrderExactly(rows: seq<Row>)
    requires Typed(rows)
    ensures IgnoresOrder(rows, RowKey) <==> !HasTwins(rows)
  {
    OrderIgnoredExactlyWithoutTies(rows, RowKey);
    TiesExactlyWithTwins(rows);
  }

  lemma NotTwins(r: Row, q: Row)
    requires Complete(r) && Complete(q)
    ensures !Twins(r, q)
  {
    if r != q && |r| == |q| {
      var i :| 0 <= i < |r| && r[i] != q[i];
      assert Null !in {r[i], q[i]};
    }
  }

  /** Baseline lists have no missing values, so they are always canonical. */
  lemma CompleteRowsIgnoreOrder(rows: seq<Row>)
    requires Typed(rows) && forall r: Row | r in rows :: Complete(r)
    ensures IgnoresOrder(rows, RowKey)
  {
    RowsIgnoreOrderExactly(rows);
    forall r: Row, q: Row | r in rows && q in rows ensures !Twins(r, q) {
      NotTwins(r, q);
    }
  }

  /** Inventory lists may: two memory modules (slot, serial, capacity, speed, type), one without a
      serial and one with an empty one, read as a change when reported in the other order. */
  lemma MissingTiesWithEmpty()
    ensures var a: Row := [Word("A"), Null, Number(8), Null, Word("DDR4")];
      var b := a[1 := Word("")];
      multiset([a, b]) == multiset([b, a]) && SortedRows([a, b]) != SortedRows([b, a])
  {
    var a: Row := [Word("A"), Null, Number(8), Null, Word("DDR4")];
    var b := a[1 := Word("")];
    assert a[1] != b[1] && BlankPair(a[1], b[1]);
    KeysTieExactlyForTwins(a, b);
    TiesShow(a, b, [], RowKey);
    assert [a, b] + [] == [a, b] && [b, a] + [] == [b, a];
  }

  // ---- Item by item -------------------------------------------------------------------

  function Mapped<T, U>(f: T -> U, s: seq<T>): seq<U> {
    if s == [] then [] else [f(s[0])] + Mapped(f, s[1..])
  }

  lemma {:induction false} MappedConcat<T, U>(f: T -> U, s: seq<T>, t: seq<T>)
    ensures Mapped(f, s + t) == Mapped(f, s) + Mapped(f, t)
  {
    if s == [] {
      assert s + t == t;
    } else {
      assert (s + t)[1..] == s[1..] + t;
      MappedConcat(f, s[1..], t);
    }
  }

  lemma MappedAround<T, U>(f: T -> U, before: seq<T>, x: T, after: seq<T>)
    ensures multiset(Mapped(f, before + [x] + after)) == multiset(Mapped(f, before + after)) + multiset{f(x)}
  {
    MappedConcat(f, before + [x], after);
    MappedConcat(f, before, [x]);
    MappedConcat(f, before, after);
    assert Mapped(f, [x]) == [f(x)];
  }

  lemma MappedWithHead<T, U>(f: T -> U, s: seq<T>, t: seq<T>, k: nat)
    requires s != [] && k < |t| && t[k] == s[0]
    requires multiset(Mapped(f, s[1..])) == multiset(Mapped(f, t[..k] + t[k + 1..]))
    ensures multiset(Mapped(f, s)) == multiset(Mapped(f, t))
  {
    Without(t, k);
    MappedAround(f, t[..k], t[k], t[k + 1..]);
  }

  lemma TailsMatch<T>(s: seq<T>, t: seq<T>, k: nat)
    requires multiset(s) == multiset(t) && s != [] && k < |t| && t[k] == s[0]
    ensures multiset(s[1..]) == multiset(t[..k] + t[k + 1..])
  {
    Without(t, k);
    assert s == [s[0]] + s[1..];
  }

  lemma {:induction false} MappedPermutation<T, U>(f: T -> U, s: seq<T>, t: seq<T>)
    requires multiset(s) == multiset(t)
    ensures multiset(Mapped(f, s)) == multiset(Mapped(f, t))
    decreases |s|
  {
    SameEmptiness(s, t);
    if s != [] {
      assert s[0] in multiset(t);
      var k :| 0 <= k < |t| && t[k] == s[0];
      TailsMatch(s, t, k);
      MappedPermutation(f, s[1..], t[..k] + t[k + 1..]);
      MappedWithHead(f, s, t, k);
    }
  }

  // ---- Network facts ------------------------------------------------------------------

  datatype Interface = Interface(name: string, addresses: seq<string>)

  function AddressKey(a: string): Key { [a] }
  function SortedAddresses(i: Interface): Interface { i.(addresses := Sort(i.addresses, AddressKey)) }
  function InterfaceKey(i: Interface): Key { [i.name] + i.addresses }

  function CanonicalNetwork(is': seq<Interface>): seq<Interface> { Sort(Mapped(SortedAddresses, is'), InterfaceKey) }

  /** The same interfaces, each with its addresses in some other order. */
  ghost predicate Shuffled(is': seq<Interface>, js: seq<Interface>) {
    |is'| == |js| && forall k | 0 <= k < |is'| ::
      is'[k].name == js[k].name && multiset(is'[k].addresses) == multiset(js[k].addresses)
  }

  lemma {:induction false} AddressOrderIgnored(is': seq<Interface>, js: seq<Interface>)
    requires Shuffled(is', js)
    ensures Mapped(SortedAddresses, is') == Mapped(SortedAddresses, js)
  {
    if is' != [] {
      assert is'[0].name == js[0].name && multiset(is'[0].addresses) == multiset(js[0].addresses);
      SortIgnoresOrder(is'[0].addresses, AddressKey);
      AddressOrderIgnored(is'[1..], js[1..]);
    }
  }

  /** Network facts are canonical under any reordering of interfaces and of their addresses. */
  lemma NetworkIgnoresOrder(is': seq<Interface>, shuffled: seq<Interface>, js: seq<Interface>)
    requires Shuffled(is', shuffled) && multiset(shuffled) == multiset(js)
    ensures CanonicalNetwork(is') == CanonicalNetwork(js)
  {
    AddressOrderIgnored(is', shuffled);
    MappedPermutation(SortedAddresses, shuffled, js);
    var each := Mapped(SortedAddresses, shuffled);
    forall x, y | x in each && y in each && InterfaceKey(x) == InterfaceKey(y) ensures x == y {
      assert InterfaceKey(x)[0] == InterfaceKey(y)[0] && InterfaceKey(x)[1..] == InterfaceKey(y)[1..];
    }
    SortIgnoresOrder(each, InterfaceKey);
  }

  /** What a network section says, without any order: each interface with the addresses it has. */
  ghost function Facts(is': seq<Interface>): multiset<(string, multiset<string>)> {
    multiset(Mapped(FactOf, is'))
  }

  ghost function FactOf(i: Interface): (string, multiset<string>) { (i.name, multiset(i.addresses)) }

  lemma FactKept(i: Interface)
    ensures FactOf(SortedAddresses(i)) == FactOf(i)
  {
    SortSorted(i.addresses, AddressKey);
  }

  lemma {:induction false} FactsKept(is': seq<Interface>)
    ensures Mapped(FactOf, Mapped(SortedAddresses, is')) == Mapped(FactOf, is')
  {
    if is' != [] {
      FactKept(is'[0]);
      FactsKept(is'[1..]);
      assert Mapped(SortedAddresses, is')[1..] == Mapped(SortedAddresses, is'[1..]);
    }
  }

  /** The canonical interface that states a fact. */
  ghost function Stating(f: (string, multiset<string>)): Interface {
    if exists i :: FactOf(i) == f then SortedAddresses(Origin(f)) else Interface("", [])
  }

  ghost function Origin(f: (string, multiset<string>)): (i: Interface)
    requires exists i :: FactOf(i) == f
    ensures FactOf(i) == f
  {
    var i :| FactOf(i) == f;
    i
  }

  lemma StatingFact(i: Interface)
    ensures Stating(FactOf(i)) == SortedAddresses(i)
  {
    var j := Origin(FactOf(i));
    SortIgnoresOrder(i.addresses, AddressKey);
  }

  lemma {:induction false} StatingFacts(is': seq<Interface>)
    ensures Mapped(Stating, Mapped(FactOf, is')) == Mapped(SortedAddresses, is')
  {
    if is' != [] {
      StatingFact(is'[0]);
      StatingFacts(is'[1..]);
      assert Mapped(FactOf, is')[1..] == Mapped(FactOf, is'[1..]);
    }
  }

  lemma InterfacesNeverTie(is': seq<Interface>)
    ensures IgnoresOrder(is', InterfaceKey)
  {
    forall x, y | x in is' && y in is' && InterfaceKey(x) == InterfaceKey(y) ensures x == y {
      assert InterfaceKey(x)[0] == InterfaceKey(y)[0] && InterfaceKey(x)[1..] == InterfaceKey(y)[1..];
    }
    SortIgnoresOrder(is', InterfaceKey);
  }

  /** Two network sections have the same canonical form exactly when they state the same facts. */
  lemma NetworkExactlyByFacts(is': seq<Interface>, js: seq<Interface>)
    ensures CanonicalNetwork(is') == CanonicalNetwork(js) <==> Facts(is') == Facts(js)
  {
    var (xs, ys) := (Mapped(SortedAddresses, is'), Mapped(SortedAddresses, js));
    if CanonicalNetwork(is') == CanonicalNetwork(js) {
      SortSorted(xs, InterfaceKey);
      SortSorted(ys, InterfaceKey);
      MappedPermutation(FactOf, xs, ys);
      FactsKept(is');
      FactsKept(js);
    }
    if Facts(is') == Facts(js) {
      MappedPermutation(Stating, Mapped(FactOf, is'), Mapped(FactOf, js));
      StatingFacts(is');
      StatingFacts(js);
      InterfacesNeverTie(xs);
    }
  }

  /** Two lists of full rows have the same canonical form exactly when they hold the same rows. */
  lemma FullRowsExactly(rows: seq<Row>, others: seq<Row>)
    requires Typed(rows) && forall r: Row | r in rows :: Complete(r)
    ensures SortedRows(rows) == SortedRows(others) <==> multiset(rows) == multiset(others)
  {
    SortSorted(rows, RowKey);
    SortSorted(others, RowKey);
    CompleteRowsIgnoreOrder(rows);
  }
}
