/** The text key is an order embedding of version precedence (Semantic Versioning 2.0.0,
    section 11), and the comparator is a total preorder on strict versions. */
module SemverOrder {
  import opened Activity
  import opened Text
  import opened Semver

  // ---- Numbers ------------------------------------------------------------------------

  function Pow10(n: nat): nat { if n == 0 then 1 else 10 * Pow10(n - 1) }

  lemma {:induction false} ValueBelow(s: string)
    requires OnlyDigits(s)
    ensures Value(s) < Pow10(|s|)
  {
    if s != "" { ValueBelow(s[..|s| - 1]); }
  }

  lemma {:induction false} ValueAtLeast(s: string)
    requires AllDigits(s) && s[0] != '0'
    ensures Pow10(|s| - 1) <= Value(s)
  {
    var t := s[..|s| - 1];
    if t == "" {
      assert Value(s) == DigitValue(s[0]);
    } else {
      ValueAtLeast(t);
    }
  }

  lemma {:induction false} Pow10Monotone(m: nat, n: nat)
    requires m <= n
    ensures Pow10(m) <= Pow10(n)
  {
    if m < n { Pow10Monotone(m, n - 1); }
  }

  lemma ShorterIsLess(s: string, t: string)
    requires Numeral(s) && Numeral(t) && |s| < |t|
    ensures Value(s) < Value(t)
  {
    ValueBelow(s);
    ValueAtLeast(t);
    Pow10Monotone(|s|, |t| - 1);
  }

  function Sign(d: int): int { if d < 0 then -1 else if d == 0 then 0 else 1 }

  lemma {:induction false} SameLengthByText(s: string, t: string)
    requires OnlyDigits(s) && OnlyDigits(t) && |s| == |t|
    ensures Sign(Value(s) - Value(t)) == Order(s, t)
  {
    if s != "" {
      var (n, c, d) := (|s| - 1, s[|s| - 1], t[|s| - 1]);
      SameLengthByText(s[..n], t[..n]);
      OrderZero(s[..n], t[..n]);
      assert s == s[..n] + [c] && t == t[..n] + [d];
      if s[..n] == t[..n] {
        OrderPrefix(s[..n], [c], [d]);
      } else {
        OrderDecided(s[..n], t[..n], [c], [d]);
      }
    }
  }

  /** A numeral is determined by its value. */
  lemma NumeralByValue(s: string, t: string)
    requires Numeral(s) && Numeral(t)
    ensures Value(s) == Value(t) <==> s == t
  {
    if |s| < |t| {
      ShorterIsLess(s, t);
    } else if |t| < |s| {
      ShorterIsLess(t, s);
    } else {
      SameLengthByText(s, t);
      OrderZero(s, t);
    }
  }

  // ---- Codes --------------------------------------------------------------------------

  function SizeCode(n: nat): string
    requires n < 100
  {
    [DigitChar(n / 10), DigitChar(n % 10)]
  }

  lemma SizeIsTwoDigits(s: string)
    requires |s| < 100
    ensures NumericKey(s) == SizeCode(|s|) + s + "!"
  {
    var (n, size) := (|s|, "00" + Decimal(|s|));
    if n < 10 {
      assert size[|size| - 2..] == SizeCode(n);
    } else {
      assert Decimal(n) == Decimal(n / 10) + [DigitChar(n % 10)] == SizeCode(n);
      assert size[|size| - 2..] == SizeCode(n);
    }
  }

  lemma SizeCodeOrder(m: nat, n: nat)
    requires m < n < 100
    ensures SizeCode(m) != SizeCode(n) && Order(SizeCode(m), SizeCode(n)) == -1
  {
    var (a, b) := (SizeCode(m), SizeCode(n));
    assert a[1..] == [DigitChar(m % 10)] && b[1..] == [DigitChar(n % 10)];
    assert m / 10 < n / 10 || (m / 10 == n / 10 && m % 10 < n % 10);
  }

  /** Numeric keys compare by value and are prefix-free. */
  lemma NumericKeyOrder(s: string, t: string, x: string, y: string)
    requires Numeral(s) && Numeral(t) && |s| < 100 && |t| < 100
    ensures s == t ==> Order(NumericKey(s) + x, NumericKey(t) + y) == Order(x, y)
    ensures s != t ==> Order(NumericKey(s) + x, NumericKey(t) + y) == Sign(Value(s) - Value(t)) != 0
  {
    SizeIsTwoDigits(s);
    SizeIsTwoDigits(t);
    if s == t {
      OrderPrefix(NumericKey(s), x, y);
    } else if |s| == |t| {
      SameLengthByText(s, t);
      var size := SizeCode(|s|);
      assert NumericKey(s) + x == size + (s + ("!" + x)) && NumericKey(t) + y == size + (t + ("!" + y));
      OrderPrefix(size, s + ("!" + x), t + ("!" + y));
      OrderDecided(s, t, "!" + x, "!" + y);
    } else {
      NumericKeySizes(s, t, x, y);
    }
  }

  lemma NumericKeySizes(s: string, t: string, x: string, y: string)
    requires Numeral(s) && Numeral(t) && |s| < 100 && |t| < 100 && |s| != |t|
    ensures Order(NumericKey(s) + x, NumericKey(t) + y) == Sign(Value(s) - Value(t)) != 0
  {
    SizeIsTwoDigits(s);
    SizeIsTwoDigits(t);
    var (a, b) := (SizeCode(|s|), SizeCode(|t|));
    assert NumericKey(s) + x == a + (s + "!" + x) && NumericKey(t) + y == b + (t + "!" + y);
    if |s| < |t| {
      ShorterIsLess(s, t);
      SizeCodeOrder(|s|, |t|);
      OrderDecided(a, b, s + "!" + x, t + "!" + y);
    } else {
      ShorterIsLess(t, s);
      SizeCodeOrder(|t|, |s|);
      OrderFlip(a, b);
      OrderDecided(a, b, s + "!" + x, t + "!" + y);
    }
  }

  /** Terminating identifiers below every identifier character keeps their order. */
  lemma {:induction false} TerminatedOrder(s: string, t: string, x: string, y: string)
    requires forall i | 0 <= i < |s| :: IsIdChar(s[i])
    requires forall i | 0 <= i < |t| :: IsIdChar(t[i])
    ensures s == t ==> Order(s + "!" + x, t + "!" + y) == Order(x, y)
    ensures s != t ==> Order(s + "!" + x, t + "!" + y) == Order(s, t) != 0
  {
    var (a, b) := (s + "!" + x, t + "!" + y);
    if s == t {
      OrderPrefix(s + "!", x, y);
    } else if s != [] && t != [] && s[0] == t[0] {
      assert s == [s[0]] + s[1..] && t == [t[0]] + t[1..];
      assert a[1..] == s[1..] + "!" + x && b[1..] == t[1..] + "!" + y;
      TerminatedOrder(s[1..], t[1..], x, y);
    }
  }

  lemma NumericTokens(s: string, t: string, x: string, y: string)
    requires Numeral(s) && Numeral(t) && |s| < 100 && |t| < 100 && s != t
    ensures Order(TokenKey(s) + x, TokenKey(t) + y) == CompareIds(s, t) != 0
  {
    assert TokenKey(s) + x == "0" + (NumericKey(s) + x) && TokenKey(t) + y == "0" + (NumericKey(t) + y);
    OrderPrefix("0", NumericKey(s) + x, NumericKey(t) + y);
    NumericKeyOrder(s, t, x, y);
  }

  lemma WordTokens(s: string, t: string, x: string, y: string)
    requires Identifier(s) && Identifier(t) && !AllDigits(s) && !AllDigits(t) && s != t
    ensures Order(TokenKey(s) + x, TokenKey(t) + y) == CompareIds(s, t) != 0
  {
    assert TokenKey(s) + x == "1" + (s + "!" + x) && TokenKey(t) + y == "1" + (t + "!" + y);
    OrderPrefix("1", s + "!" + x, t + "!" + y);
    TerminatedOrder(s, t, x, y);
    OrderRange(s, t);
  }

  lemma TokenKeyOrder(s: string, t: string, x: string, y: string)
    requires StrictIdentifier(s) && StrictIdentifier(t) && |s| < 100 && |t| < 100
    ensures s == t ==> Order(TokenKey(s) + x, TokenKey(t) + y) == Order(x, y)
    ensures s != t ==> Order(TokenKey(s) + x, TokenKey(t) + y) == CompareIds(s, t) != 0
  {
    if s == t {
      OrderPrefix(TokenKey(s), x, y);
    } else if AllDigits(s) && AllDigits(t) {
      NumericTokens(s, t, x, y);
    } else if !AllDigits(s) && !AllDigits(t) {
      WordTokens(s, t, x, y);
    } else {
      assert TokenKey(s)[0] == (if AllDigits(s) then '0' else '1') && TokenKey(t)[0] == (if AllDigits(t) then '0' else '1');
    }
  }

  // ---- Prerelease lists ---------------------------------------------------------------

  ghost predicate Tokens(ids: seq<string>) {
    forall i | 0 <= i < |ids| :: StrictIdentifier(ids[i]) && |ids[i]| < 100
  }

  function ListKey(ids: seq<string>): string {
    if ids == [] then "" else TokenKey(ids[0]) + ListKey(ids[1..])
  }

  lemma {:induction false} ListKeyOrder(a: seq<string>, b: seq<string>)
    requires Tokens(a) && Tokens(b)
    ensures Order(ListKey(a), ListKey(b)) == CompareLists(a, b)
  {
    if a != [] && b != [] {
      TokenKeyOrder(a[0], b[0], ListKey(a[1..]), ListKey(b[1..]));
      if a[0] == b[0] { ListKeyOrder(a[1..], b[1..]); }
    }
  }

  // ---- Reading the key off the text ---------------------------------------------------

  lemma {:induction false} SplitAt(s: string, d: char, r: string)
    requires d !in s
    ensures Before(s + [d] + r, d) == s && After(s + [d] + r, d) == r
    ensures Before(s, d) == s && After(s, d) == ""
  {
    FoundAt(s, d, r);
    assert (s + [d] + r)[..|s|] == s && (s + [d] + r)[|s| + 1..] == r;
  }

  lemma {:induction false} FoundAt(s: string, d: char, r: string)
    requires d !in s
    ensures Find(s + [d] + r, d) == Some(|s|) && Find(s, d) == None
  {
    if s != "" {
      assert (s + [d] + r)[1..] == s[1..] + [d] + r;
      FoundAt(s[1..], d, r);
    }
  }

  lemma {:induction false} PreKeyOfJoin(ids: seq<string>)
    requires forall i | 0 <= i < |ids| :: Identifier(ids[i])
    ensures PreKey(Join(ids)) == ListKey(ids)
    ensures Join(ids) == "" <==> ids == []
  {
    if ids != [] {
      var id := ids[0];
      assert '.' !in id;
      PreKeyOfJoin(ids[1..]);
      SplitAt(id, '.', Join(ids[1..]));
      if |ids| == 1 {
        assert ids[1..] == [];
        assert TokenKey(id) + "" == TokenKey(id);
      }
    }
  }

  lemma {:induction false} JoinChars(ids: seq<string>, c: char)
    requires forall i | 0 <= i < |ids| :: Identifier(ids[i])
    requires c in Join(ids)
    ensures IsIdChar(c) || c == '.'
  {
    if |ids| > 1 {
      if c !in ids[0] && c != '.' { JoinChars(ids[1..], c); }
    }
  }

  function Core(v: Version): string { v.major + "." + v.minor + "." + v.patch }
  function Bare(v: Version): string { Core(v) + if v.pre == [] then "" else "-" + Join(v.pre) }

  lemma CoreIsPlain(v: Version)
    requires Strict(v)
    ensures '-' !in Core(v) && '+' !in Core(v)
  {
  }

  lemma BareHasNoPlus(v: Version)
    requires Strict(v)
    ensures '+' !in Bare(v)
  {
    CoreIsPlain(v);
    if '+' in Join(v.pre) { JoinChars(v.pre, '+'); }
  }

  lemma BuildSplits(v: Version)
    requires Strict(v)
    ensures Before(Render(v), '+') == Bare(v)
  {
    BareHasNoPlus(v);
    if v.build != [] {
      assert Render(v) == Bare(v) + ['+'] + Join(v.build);
      SplitAt(Bare(v), '+', Join(v.build));
    } else {
      assert Render(v) == Bare(v);
      SplitAt(Bare(v), '+', "");
    }
  }

  lemma TextSplits(v: Version)
    requires Strict(v)
    ensures var (text, pre) := (Render(v), Join(v.pre));
      && Before(text, '+') == Bare(v)
      && Before(Bare(v), '-') == Core(v) && After(Bare(v), '-') == pre
      && (v.pre == [] <==> pre == "")
  {
    BuildSplits(v);
    CoreIsPlain(v);
    PreKeyOfJoin(v.pre);
    assert v.pre != [] ==> Bare(v) == Core(v) + ['-'] + Join(v.pre);
    assert v.pre == [] ==> Bare(v) == Core(v);
    SplitAt(Core(v), '-', Join(v.pre));
  }

  lemma CoreSplits(v: Version)
    requires Strict(v)
    ensures var (core, tail) := (Core(v), v.minor + "." + v.patch);
      && Before(core, '.') == v.major && After(core, '.') == tail
      && Before(tail, '.') == v.minor && After(tail, '.') == v.patch
  {
    var tail := v.minor + "." + v.patch;
    assert Core(v) == v.major + ['.'] + tail && tail == v.minor + ['.'] + v.patch;
    SplitAt(v.major, '.', tail);
    SplitAt(v.minor, '.', v.patch);
  }

  function KeyTail(v: Version): string { if v.pre == [] then "1" else "0" + ListKey(v.pre) }

  /** The key computed from the text is the key of its components; build metadata is ignored. */
  lemma KeyOfRendered(v: Version)
    requires Strict(v)
    ensures KeyOfText(Render(v)) == NumericKey(v.major) + NumericKey(v.minor) + NumericKey(v.patch) + KeyTail(v)
  {
    TextSplits(v);
    CoreSplits(v);
    PreKeyOfJoin(v.pre);
  }

  // ---- The embedding ------------------------------------------------------------------

  lemma {:induction false} JoinLength(ids: seq<string>, i: nat)
    requires i < |ids|
    ensures |ids[i]| <= |Join(ids)|
  {
    if |ids| > 1 && i > 0 { JoinLength(ids[1..], i - 1); }
  }

  lemma ComponentsFit(v: Version)
    requires Strict(v) && |Render(v)| <= 64
    ensures |v.major| < 100 && |v.minor| < 100 && |v.patch| < 100 && Tokens(v.pre)
  {
    forall i | 0 <= i < |v.pre| ensures |v.pre[i]| < 100 { JoinLength(v.pre, i); }
  }

  lemma TailOrder(v: Version, w: Version)
    requires Strict(v) && Strict(w) && Tokens(v.pre) && Tokens(w.pre)
    ensures Order(KeyTail(v), KeyTail(w)) == ComparePrerelease(PartsOf(v).pre, PartsOf(w).pre)
  {
    if v.pre != [] && w.pre != [] {
      OrderPrefix("0", ListKey(v.pre), ListKey(w.pre));
      ListKeyOrder(v.pre, w.pre);
    }
  }

  lemma ComponentKeysOrder(v: Version, w: Version)
    requires Strict(v) && Strict(w) && Tokens(v.pre) && Tokens(w.pre)
    requires |v.major| < 100 && |v.minor| < 100 && |v.patch| < 100
    requires |w.major| < 100 && |w.minor| < 100 && |w.patch| < 100
    ensures Order(NumericKey(v.major) + (NumericKey(v.minor) + (NumericKey(v.patch) + KeyTail(v))),
                  NumericKey(w.major) + (NumericKey(w.minor) + (NumericKey(w.patch) + KeyTail(w))))
         == CompareParts(PartsOf(v), PartsOf(w))
  {
    NumeralByValue(v.major, w.major);
    NumeralByValue(v.minor, w.minor);
    NumeralByValue(v.patch, w.patch);
    TailOrder(v, w);
    NumericKeyOrder(v.patch, w.patch, KeyTail(v), KeyTail(w));
    NumericKeyOrder(v.minor, w.minor, NumericKey(v.patch) + KeyTail(v), NumericKey(w.patch) + KeyTail(w));
    NumericKeyOrder(v.major, w.major, NumericKey(v.minor) + (NumericKey(v.patch) + KeyTail(v)),
                    NumericKey(w.minor) + (NumericKey(w.patch) + KeyTail(w)));
  }

  lemma ShortestVersion(v: Version)
    requires Strict(v)
    ensures 5 <= |Render(v)|
  {
  }

  /** Sorting by the text key is sorting by precedence: on every pair of valid versions the byte
      order of the keys equals the comparator, and keys are equal exactly when precedence is. */
  lemma KeyEmbedsPrecedence(v: Version, w: Version)
    requires Strict(v) && Strict(w) && |Render(v)| <= 64 && |Render(w)| <= 64
    ensures var (a, b) := (SemverKey(Render(v)), SemverKey(Render(w)));
      && a.Some? && b.Some?
      && Order(a.value, b.value) == CompareParts(PartsOf(v), PartsOf(w))
      && (a == b <==> CompareParts(PartsOf(v), PartsOf(w)) == 0)
  {
    ShortestVersion(v);
    ShortestVersion(w);
    ComponentsFit(v);
    ComponentsFit(w);
    KeyOfRendered(v);
    KeyOfRendered(w);
    KeyRegroups(v);
    KeyRegroups(w);
    ComponentKeysOrder(v, w);
    OrderZero(KeyOfText(Render(v)), KeyOfText(Render(w)));
  }

  lemma KeyRegroups(v: Version)
    requires Strict(v)
    ensures NumericKey(v.major) + NumericKey(v.minor) + NumericKey(v.patch) + KeyTail(v)
         == NumericKey(v.major) + (NumericKey(v.minor) + (NumericKey(v.patch) + KeyTail(v)))
  {
  }

  // ---- The comparator as an order -----------------------------------------------------

  /** The pair that decides consists of two different spellings of one number. */
  predicate Ambiguous(a: seq<string>, b: seq<string>) {
    a != [] && b != [] &&
    if a[0] == b[0] then Ambiguous(a[1..], b[1..])
    else AllDigits(a[0]) && AllDigits(b[0]) && Value(a[0]) == Value(b[0])
  }

  lemma IdsFlip(s: string, t: string)
    ensures s != t ==>
      (CompareIds(s, t) == -CompareIds(t, s) <==> !(AllDigits(s) && AllDigits(t) && Value(s) == Value(t)))
    ensures CompareIds(s, t) == 0 <==> s == t
  {
    OrderFlip(s, t);
    OrderZero(s, t);
  }

  /** On the looser pattern the updater accepts, swapping the arguments flips the answer exactly
      when the deciding pair is not one number spelt in two ways, such as `01` and `1`. */
  lemma {:induction false} FlipsUnlessAmbiguous(a: seq<string>, b: seq<string>)
    ensures CompareLists(a, b) == -CompareLists(b, a) <==> !Ambiguous(a, b)
  {
    if a != [] && b != [] {
      IdsFlip(a[0], b[0]);
      if a[0] == b[0] { FlipsUnlessAmbiguous(a[1..], b[1..]); }
    }
  }

  lemma LeadingZeroBreaksFlip()
    ensures CompareLists(["01"], ["1"]) == -1 == CompareLists(["1"], ["01"])
  {
    assert Value("0") == 0 by { assert "0"[..0] == ""; }
    assert "01"[..1] == "0" && "1"[..0] == "";
    assert Value("01") == 1 == Value("1");
    assert AllDigits("01") && AllDigits("1");
  }

  ghost predicate StrictList(a: seq<string>) { forall i | 0 <= i < |a| :: StrictIdentifier(a[i]) }

  lemma {:induction false} StrictNeverAmbiguous(a: seq<string>, b: seq<string>)
    requires StrictList(a) && StrictList(b)
    ensures !Ambiguous(a, b)
  {
    if a != [] && b != [] {
      if a[0] == b[0] {
        StrictNeverAmbiguous(a[1..], b[1..]);
      } else if AllDigits(a[0]) && AllDigits(b[0]) {
        NumeralByValue(a[0], b[0]);
      }
    }
  }

  lemma IdsTransitive(s: string, t: string, u: string)
    requires StrictIdentifier(s) && StrictIdentifier(t) && StrictIdentifier(u)
    requires CompareIds(s, t) < 0 && CompareIds(t, u) < 0
    ensures CompareIds(s, u) < 0
  {
    if Order(s, t) <= 0 && Order(t, u) <= 0 { OrderTransitive(s, t, u); }
    OrderZero(s, t);
    OrderZero(t, u);
    OrderZero(s, u);
    if AllDigits(s) && AllDigits(t) { NumeralByValue(s, t); }
    if AllDigits(t) && AllDigits(u) { NumeralByValue(t, u); }
    if AllDigits(s) && AllDigits(u) { NumeralByValue(s, u); }
  }

  lemma {:induction false} ListsEqual(a: seq<string>, b: seq<string>)
    ensures CompareLists(a, b) == 0 <==> a == b
  {
    if a != [] && b != [] {
      IdsFlip(a[0], b[0]);
      ListsEqual(a[1..], b[1..]);
      assert a == [a[0]] + a[1..] && b == [b[0]] + b[1..];
    }
  }

  lemma {:induction false} ListsTransitive(a: seq<string>, b: seq<string>, c: seq<string>)
    requires StrictList(a) && StrictList(b) && StrictList(c)
    requires CompareLists(a, b) < 0 && CompareLists(b, c) < 0
    ensures CompareLists(a, c) < 0
  {
    if a != [] && b != [] && c != [] {
      IdsFlip(a[0], b[0]);
      IdsFlip(b[0], c[0]);
      if a[0] == b[0] == c[0] {
        ListsTransitive(a[1..], b[1..], c[1..]);
      } else if a[0] != b[0] && b[0] != c[0] {
        IdsTransitive(a[0], b[0], c[0]);
        IdsFlip(a[0], c[0]);
      }
    }
  }

  /** "Strictly newer" chains on any identifiers: only "older" can be said of two spellings of one
      number, never "newer". */
  lemma IdsClimb(s: string, t: string, u: string)
    requires CompareIds(s, t) > 0 && CompareIds(t, u) > 0
    ensures CompareIds(s, u) > 0
  {
    OrderZero(s, t);
    OrderZero(t, u);
    OrderFlip(s, t);
    OrderFlip(t, u);
    OrderFlip(s, u);
    if Order(u, t) <= 0 && Order(t, s) <= 0 { OrderTransitive(u, t, s); }
    OrderZero(u, s);
  }

  lemma {:induction false} ListsClimb(a: seq<string>, b: seq<string>, c: seq<string>)
    requires CompareLists(a, b) > 0 && CompareLists(b, c) > 0
    ensures CompareLists(a, c) > 0
  {
    if a != [] && b != [] && c != [] {
      if a[0] == b[0] == c[0] {
        ListsClimb(a[1..], b[1..], c[1..]);
      } else if a[0] != b[0] && b[0] != c[0] {
        IdsClimb(a[0], b[0], c[0]);
      }
    }
  }

  function Precedence(v: Version, w: Version): int
    requires Loose(v) && Loose(w)
  {
    CompareParts(PartsOf(v), PartsOf(w))
  }

  /** Same precedence: equal up to build metadata. */
  predicate SamePrecedence(v: Version, w: Version) {
    v.major == w.major && v.minor == w.minor && v.patch == w.patch && v.pre == w.pre
  }

  /** On strict versions of any length the comparator is antisymmetric in sign, and gives zero
      exactly to versions that differ at most in build metadata. */
  lemma PrecedenceFlips(v: Version, w: Version)
    requires Strict(v) && Strict(w)
    ensures Precedence(v, w) == -Precedence(w, v)
    ensures Precedence(v, w) == 0 <==> SamePrecedence(v, w)
  {
    NumeralByValue(v.major, w.major);
    NumeralByValue(v.minor, w.minor);
    NumeralByValue(v.patch, w.patch);
    FlipsUnlessAmbiguous(v.pre, w.pre);
    StrictNeverAmbiguous(v.pre, w.pre);
    ListsEqual(v.pre, w.pre);
  }

  lemma PrecedenceTransitive(u: Version, v: Version, w: Version)
    requires Strict(u) && Strict(v) && Strict(w)
    requires Precedence(u, v) < 0 && Precedence(v, w) < 0
    ensures Precedence(u, w) < 0
  {
    if u.pre != [] && v.pre != [] && w.pre != [] && CompareLists(u.pre, v.pre) < 0 && CompareLists(v.pre, w.pre) < 0 {
      ListsTransitive(u.pre, v.pre, w.pre);
    }
  }

  /** On every version the updater parses, zero goes exactly to versions that differ at most in
      build metadata, and being strictly newer is transitive. */
  lemma EqualExactlyUpToBuild(v: Version, w: Version)
    requires Loose(v) && Loose(w)
    ensures Precedence(v, w) == 0 <==> SamePrecedence(v, w)
  {
    NumeralByValue(v.major, w.major);
    NumeralByValue(v.minor, w.minor);
    NumeralByValue(v.patch, w.patch);
    ListsEqual(v.pre, w.pre);
  }

  lemma NewerIsTransitive(u: Version, v: Version, w: Version)
    requires Loose(u) && Loose(v) && Loose(w)
    requires Precedence(u, v) > 0 && Precedence(v, w) > 0
    ensures Precedence(u, w) > 0
  {
    if u.pre != [] && v.pre != [] && w.pre != [] && CompareLists(u.pre, v.pre) > 0 && CompareLists(v.pre, w.pre) > 0 {
      ListsClimb(u.pre, v.pre, w.pre);
    }
  }

  // ---- Runs of updates ----------------------------------------------------------------

  /** The updater's rule: strictly newer, or older with a recorded rollback reason. */
  predicate Eligible(candidate: Version, installed: Version, rollbackReason: bool)
    requires Loose(candidate) && Loose(installed)
  {
    Precedence(candidate, installed) > 0 || (Precedence(candidate, installed) < 0 && rollbackReason)
  }

  /** With a rollback reason every other version may be installed, and only another one; without it
      only strictly newer ones. */
  lemma EligibleExactly(candidate: Version, installed: Version)
    requires Loose(candidate) && Loose(installed)
    ensures Eligible(candidate, installed, true) <==> !SamePrecedence(candidate, installed)
    ensures Eligible(candidate, installed, false) <==> Precedence(candidate, installed) > 0
  {
    EqualExactlyUpToBuild(candidate, installed);
  }

  /** Of two different strict versions exactly one may follow the other without a reason. */
  lemma OneWayOnly(v: Version, w: Version)
    requires Strict(v) && Strict(w)
    ensures SamePrecedence(v, w) ==> !Eligible(v, w, false) && !Eligible(w, v, false)
    ensures !SamePrecedence(v, w) ==> (Eligible(v, w, false) <==> !Eligible(w, v, false))
  {
    PrecedenceFlips(v, w);
  }

  ghost predicate Upgrades(vs: seq<Version>) {
    && (forall i | 0 <= i < |vs| :: Loose(vs[i]))
    && (forall i | 0 < i < |vs| :: Eligible(vs[i], vs[i - 1], false))
  }

  /** Without a rollback reason a machine only climbs: any later version is strictly newer than any
      earlier one, so none is ever installed twice, not even under other build metadata. */
  lemma {:induction false} UpgradesClimb(vs: seq<Version>, i: nat, j: nat)
    requires Upgrades(vs) && i < j < |vs|
    ensures Precedence(vs[j], vs[i]) > 0 && !SamePrecedence(vs[j], vs[i])
    decreases j - i
  {
    if i < j - 1 {
      UpgradesClimb(vs, i, j - 1);
      NewerIsTransitive(vs[j], vs[j - 1], vs[i]);
    }
    EqualExactlyUpToBuild(vs[j], vs[i]);
  }
}
