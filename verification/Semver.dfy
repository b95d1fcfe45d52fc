/** Version precedence, computed twice: directly on the parsed parts, and as a text key whose
    byte order the database sorts by. */
module Semver {
  import opened Activity
  import opened Text

  // ---- Text ---------------------------------------------------------------------------

  predicate IsDigit(c: char) { '0' <= c <= '9' }
  predicate IsLetter(c: char) { 'A' <= c <= 'Z' || 'a' <= c <= 'z' }
  predicate IsIdChar(c: char) { IsDigit(c) || IsLetter(c) || c == '-' }

  predicate AllDigits(s: string) { |s| > 0 && OnlyDigits(s) }

  /** A number without leading zeros. */
  predicate Numeral(s: string) { AllDigits(s) && (|s| == 1 || s[0] != '0') }

  predicate Identifier(s: string) { |s| > 0 && forall i | 0 <= i < |s| :: IsIdChar(s[i]) }

  /** A prerelease identifier as the standard has it: numbers carry no leading zeros. */
  predicate StrictIdentifier(s: string) { Identifier(s) && (AllDigits(s) ==> Numeral(s)) }

  function DigitValue(c: char): nat
    requires IsDigit(c)
  {
    c as int - '0' as int
  }

  predicate OnlyDigits(s: string) { forall i | 0 <= i < |s| :: IsDigit(s[i]) }

  function Value(s: string): nat
    requires OnlyDigits(s)
  {
    if s == "" then 0 else 10 * Value(s[..|s| - 1]) + DigitValue(s[|s| - 1])
  }

  // ---- Versions -----------------------------------------------------------------------

  /** An empty list stands for an absent part. */
  datatype Version = Version(major: string, minor: string, patch: string, pre: seq<string>, build: seq<string>)

  /** What the updater's pattern accepts. */
  predicate Loose(v: Version) {
    && Numeral(v.major) && Numeral(v.minor) && Numeral(v.patch)
    && (forall i | 0 <= i < |v.pre| :: Identifier(v.pre[i]))
    && (forall i | 0 <= i < |v.build| :: Identifier(v.build[i]))
  }

  /** What the standard, and the pattern of the text key, accept. */
  predicate Strict(v: Version) { Loose(v) && forall i | 0 <= i < |v.pre| :: StrictIdentifier(v.pre[i]) }

  function Join(ids: seq<string>): string {
    if ids == [] then "" else if |ids| == 1 then ids[0] else ids[0] + "." + Join(ids[1..])
  }

  function Render(v: Version): string {
    v.major + "." + v.minor + "." + v.patch
    + (if v.pre == [] then "" else "-" + Join(v.pre))
    + (if v.build == [] then "" else "+" + Join(v.build))
  }

  // ---- The comparator -----------------------------------------------------------------

  datatype Parts = Parts(major: nat, minor: nat, patch: nat, pre: Option<seq<string>>)

  function PartsOf(v: Version): Parts
    requires Loose(v)
  {
    Parts(Value(v.major), Value(v.minor), Value(v.patch), if v.pre == [] then None else Some(v.pre))
  }

  function CompareIds(left: string, right: string): int {
    if left == right then 0
    else if AllDigits(left) && AllDigits(right) then (if Value(left) > Value(right) then 1 else -1)
    else if AllDigits(left) then -1
    else if AllDigits(right) then 1
    else if Order(left, right) > 0 then 1 else -1
  }

  /** The first pair that differs decides; otherwise the longer list wins. */
  function CompareLists(candidate: seq<string>, installed: seq<string>): int {
    if candidate == [] || installed == [] then
      if |candidate| == |installed| then 0 else if |candidate| > |installed| then 1 else -1
    else if candidate[0] == installed[0] then CompareLists(candidate[1..], installed[1..])
    else CompareIds(candidate[0], installed[0])
  }

  function ComparePrerelease(candidate: Option<seq<string>>, installed: Option<seq<string>>): int {
    if candidate.None? then (if installed.None? then 0 else 1)
    else if installed.None? then -1
    else CompareLists(candidate.value, installed.value)
  }

  predicate CoreGreater(a: Parts, b: Parts) {
    a.major > b.major || (a.major == b.major && (a.minor > b.minor || (a.minor == b.minor && a.patch > b.patch)))
  }

  function CompareParts(candidate: Parts, installed: Parts): int {
    if (candidate.major, candidate.minor, candidate.patch) != (installed.major, installed.minor, installed.patch)
    then (if CoreGreater(candidate, installed) then 1 else -1)
    else ComparePrerelease(candidate.pre, installed.pre)
  }

  // ---- The text key -------------------------------------------------------------------

  /** Position of the first `d` in `s`; absent means none. */
  function Find(s: string, d: char): Option<nat> {
    if s == "" then None
    else if s[0] == d then Some(0)
    else match Find(s[1..], d) case None => None case Some(i) => Some(i + 1)
  }

  lemma {:induction false} FindInside(s: string, d: char)
    ensures Find(s, d).Some? ==> Find(s, d).value < |s|
  {
    if s != "" && s[0] != d { FindInside(s[1..], d); }
  }

  function Before(s: string, d: char): string {
    FindInside(s, d);
    match Find(s, d) case None => s case Some(i) => s[..i]
  }

  function After(s: string, d: char): string {
    FindInside(s, d);
    match Find(s, d) case None => "" case Some(i) => s[i + 1..]
  }

  /** The last two characters of the padded length, the text, and a terminator below every
      character a version may contain. */
  function NumericKey(s: string): string {
    var size := "00" + Decimal(|s|);
    size[|size| - 2..] + s + "!"
  }

  function TokenKey(s: string): string {
    if AllDigits(s) then "0" + NumericKey(s) else "1" + s + "!"
  }

  /** Consume a dotted list token by token. */
  function PreKey(rest: string): string
    decreases |rest|
  {
    FindInside(rest, '.');
    if rest == "" then "" else TokenKey(Before(rest, '.')) + PreKey(After(rest, '.'))
  }

  function KeyOfText(text: string): string {
    var bare := Before(text, '+');
    var (core, pre) := (Before(bare, '-'), After(bare, '-'));
    var tail := After(core, '.');
    NumericKey(Before(core, '.')) + NumericKey(Before(tail, '.')) + NumericKey(After(tail, '.'))
    + (if pre == "" then "1" else "0" + PreKey(pre))
  }

  /** The key of a valid version of at most 64 characters; anything else has none. */
  ghost function SemverKey(text: string): Option<string> {
    if 5 <= |text| <= 64 && exists v :: Strict(v) && Render(v) == text then Some(KeyOfText(text)) else None
  }
}
