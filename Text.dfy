/** String operations the server and the client rely on, with JavaScript's meaning:
    the `\s` whitespace class, `trim`, `toLowerCase` (ASCII letters only),
    `replace(/\s+/g, ' ')`, `includes`, `split` and `join` on one separator character,
    number-to-string conversion and `parseInt(s, 10)`. */
module Text {

  /** A character of JavaScript's `\s` class; `String.prototype.trim` strips exactly these. */
  predicate IsSpace(c: char) {
    c == ' ' || c == '\t' || c == '\n' || c == '\U{B}' || c == '\U{C}' || c == '\r'
    || c == '\U{A0}' || c == '\U{1680}' || ('\U{2000}' <= c <= '\U{200A}')
    || c == '\U{2028}' || c == '\U{2029}' || c == '\U{202F}' || c == '\U{205F}'
    || c == '\U{3000}' || c == '\U{FEFF}'
  }

  /** The suffix of `s` left once its leading whitespace is removed. */
  function TrimStart(s: string): (r: string)
    ensures |r| <= |s| && r == s[|s| - |r|..]
    ensures r == [] || !IsSpace(r[0])
    ensures forall i :: 0 <= i < |s| - |r| ==> IsSpace(s[i])
  {
    if s != [] && IsSpace(s[0]) then TrimStart(s[1..]) else s
  }

  /** The prefix of `s` left once its trailing whitespace is removed. */
  function TrimEnd(s: string): (r: string)
    ensures |r| <= |s| && r == s[..|r|]
    ensures r == [] || !IsSpace(r[|r| - 1])
    ensures forall i :: |r| <= i < |s| ==> IsSpace(s[i])
  {
    if s != [] && IsSpace(s[|s| - 1]) then TrimEnd(s[..|s| - 1]) else s
  }

  /** The leading whitespace of `s` ends at position `k`. */
  lemma TrimStartAt(s: string, k: nat)
    requires k < |s| && !IsSpace(s[k])
    requires forall i :: 0 <= i < k ==> IsSpace(s[i])
    ensures TrimStart(s) == s[k..]
  {
    var r := TrimStart(s);
    assert r != [] ==> r[0] == s[|s| - |r|];
  }

  /** `s.trim()`. */
  function Trim(s: string): string {
    TrimEnd(TrimStart(s))
  }

  /** True when `s` has no whitespace at either end. */
  predicate Trimmed(s: string) {
    s == [] || (!IsSpace(s[0]) && !IsSpace(s[|s| - 1]))
  }

  lemma TrimIsTrimmed(s: string)
    ensures Trimmed(Trim(s))
    ensures |Trim(s)| <= |s|
  {
  }

  /** `s.trim()` is empty exactly when `s` is all whitespace. */
  lemma TrimEmptyIff(s: string)
    ensures Trim(s) == [] <==> forall i :: 0 <= i < |s| ==> IsSpace(s[i])
  {
  }

  lemma {:induction false} TrimOfTrimmed(s: string)
    requires Trimmed(s)
    ensures Trim(s) == s
  {
  }

  /** Lower-cases an ASCII capital letter and leaves every other character alone. */
  function LowerChar(c: char): (d: char)
    ensures IsSpace(d) == IsSpace(c)
    ensures 'A' <= c <= 'Z' ==> d != c
  {
    if 'A' <= c <= 'Z' then (c as int + 32) as char else c
  }

  /** `s.toLowerCase()` restricted to ASCII letters. */
  function ToLower(s: string): (r: string)
    ensures |r| == |s|
    ensures forall i :: 0 <= i < |s| ==> r[i] == LowerChar(s[i])
  {
    seq(|s|, i requires 0 <= i < |s| => LowerChar(s[i]))
  }

  /** Every character of `s` is already lower case. */
  predicate LowerCase(s: string) {
    forall i :: 0 <= i < |s| ==> LowerChar(s[i]) == s[i]
  }

  /** Lower-casing twice is lower-casing once. */
  lemma ToLowerIsLower(s: string)
    ensures LowerCase(ToLower(s))
  {
    var r := ToLower(s);
    forall i | 0 <= i < |r|
      ensures LowerChar(r[i]) == r[i]
    {
      if 'A' <= s[i] <= 'Z' {
        assert 'a' <= r[i] <= 'z';
      }
    }
  }

  /** Case-insensitive equality, as an anchored regular expression with the `i` flag decides it. */
  predicate EqualsIgnoreCase(a: string, b: string) {
    ToLower(a) == ToLower(b)
  }

  /** `s.replace(/\s+/g, ' ')`: every maximal run of whitespace becomes one space. */
  function Collapse(s: string): (r: string)
    ensures |r| <= |s|
    ensures r == [] <==> s == []
    ensures s != [] ==> r[0] == (if IsSpace(s[0]) then ' ' else s[0])
    ensures s != [] && !IsSpace(s[|s| - 1]) ==> r[|r| - 1] == s[|s| - 1]
    decreases |s|
  {
    if s == [] then []
    else if IsSpace(s[0]) then
      var t := TrimStart(s);
      assert t != [] ==> t[|t| - 1] == s[|s| - 1];
      [' '] + Collapse(t)
    else
      [s[0]] + Collapse(s[1..])
  }

  /** The only whitespace in `s` is single plain spaces. */
  predicate SingleSpaced(s: string) {
    && (forall i :: 0 <= i < |s| && IsSpace(s[i]) ==> s[i] == ' ')
    && (forall i :: 0 <= i < |s| - 1 ==> !(IsSpace(s[i]) && IsSpace(s[i + 1])))
  }

  lemma SingleSpacedCons(c: char, s: string)
    requires SingleSpaced(s)
    requires IsSpace(c) ==> c == ' ' && (s == [] || !IsSpace(s[0]))
    ensures SingleSpaced([c] + s)
  {
    var t := [c] + s;
    assert forall i :: 1 <= i < |t| ==> t[i] == s[i - 1];
  }

  lemma SingleSpacedTail(s: string)
    requires s != [] && SingleSpaced(s)
    ensures SingleSpaced(s[1..])
  {
    assert forall i :: 0 <= i < |s| - 1 ==> s[1..][i] == s[i + 1];
  }

  /** Collapsing leaves no whitespace but single plain spaces. */
  lemma {:induction false} CollapseSingleSpaced(s: string)
    ensures SingleSpaced(Collapse(s))
    decreases |s|
  {
    if s != [] {
      if IsSpace(s[0]) {
        var t := TrimStart(s);
        CollapseSingleSpaced(t);
        SingleSpacedCons(' ', Collapse(t));
      } else {
        CollapseSingleSpaced(s[1..]);
        SingleSpacedCons(s[0], Collapse(s[1..]));
      }
    }
  }

  /** Collapsing keeps a lower-case string lower case. */
  lemma LowerCaseCons(c: char, s: string)
    requires LowerChar(c) == c && LowerCase(s)
    ensures LowerCase([c] + s)
  {
    var t := [c] + s;
    assert forall i :: 1 <= i < |t| ==> t[i] == s[i - 1];
  }

  lemma LowerCaseSuffix(s: string, k: nat)
    requires LowerCase(s) && k <= |s|
    ensures LowerCase(s[k..])
  {
    assert forall i :: 0 <= i < |s| - k ==> s[k..][i] == s[k + i];
  }

  lemma {:induction false} CollapseKeepsLower(s: string)
    requires LowerCase(s)
    ensures LowerCase(Collapse(s))
    decreases |s|
  {
    if s != [] {
      if IsSpace(s[0]) {
        var t := TrimStart(s);
        LowerCaseSuffix(s, |s| - |t|);
        CollapseKeepsLower(t);
        LowerCaseCons(' ', Collapse(t));
      } else {
        LowerCaseSuffix(s, 1);
        CollapseKeepsLower(s[1..]);
        LowerCaseCons(s[0], Collapse(s[1..]));
      }
    }
  }

  /** Collapsing keeps a string trimmed. */
  lemma CollapseKeepsTrimmed(s: string)
    requires Trimmed(s)
    ensures Trimmed(Collapse(s))
  {
  }

  /** The product-name normalisation of the creation handler:
      trim, then lower-case, then collapse whitespace runs. */
  function Normalize(name: string): string {
    Collapse(ToLower(Trim(name)))
  }

  /** What `Normalize` produces: trimmed, lower case, and its only whitespace single spaces. */
  predicate NormalForm(s: string) {
    && Trimmed(s)
    && LowerCase(s)
    && SingleSpaced(s)
  }

  lemma NormalizeIsNormal(name: string)
    ensures NormalForm(Normalize(name))
  {
    var t := Trim(name);
    TrimIsTrimmed(name);
    var l := ToLower(t);
    ToLowerIsLower(t);
    assert Trimmed(l);
    CollapseSingleSpaced(l);
    CollapseKeepsLower(l);
    CollapseKeepsTrimmed(l);
  }

  /** Collapsing changes nothing in a string whose whitespace is already single spaces. */
  lemma {:induction false} CollapseOfCollapsed(s: string)
    requires SingleSpaced(s)
    ensures Collapse(s) == s
    decreases |s|
  {
    if s != [] {
      SingleSpacedTail(s);
      CollapseOfCollapsed(s[1..]);
      if IsSpace(s[0]) {
        if |s| > 1 {
          TrimStartAt(s, 1);
        }
        assert TrimStart(s) == s[1..];
      }
      assert [s[0]] + s[1..] == s;
    }
  }

  /** A string in normal form is its own normalisation. */
  lemma NormalFormIsFixed(s: string)
    requires NormalForm(s)
    ensures Normalize(s) == s
  {
    TrimOfTrimmed(s);
    assert ToLower(s) == s;
    CollapseOfCollapsed(s);
  }

  /** Normalising twice is normalising once. */
  lemma NormalizeIdempotent(name: string)
    ensures Normalize(Normalize(name)) == Normalize(name)
  {
    NormalizeIsNormal(name);
    NormalFormIsFixed(Normalize(name));
  }

  /** A name of two one-character words joined by one space. */
  predicate TwoWords(s: string) {
    |s| == 3 && !IsSpace(s[0]) && s[1] == ' ' && !IsSpace(s[2])
  }

  /** `b` is the two-word name `a` with its space doubled. */
  predicate SpacedTwin(a: string, b: string) {
    TwoWords(a) && |b| == 4 && b[0] == a[0] && b[1] == ' ' && b[2] == ' ' && b[3] == a[2]
  }

  /** `s` is the character `c` with a space on each side. */
  predicate Padded(s: string, c: char) {
    |s| == 3 && s[0] == ' ' && s[1] == c && s[2] == ' '
  }

  /** A padded character normalises to that character, lower-cased. */
  lemma NormalizePadded(s: string, c: char)
    requires Padded(s, c) && !IsSpace(c)
    ensures Normalize(s) == ToLower(s[1..2])
  {
    TrimStartAt(s, 1);
    var t := s[1..];
    assert TrimEnd(t) == t[..1] by {
      assert TrimEnd(t[..1]) == t[..1];
    }
    assert t[..1] == s[1..2];
    var l := ToLower(s[1..2]);
    assert |Collapse(l)| == 1;
  }

  /** A two-word name is already normal up to case. */
  lemma NormalizeTwoWords(s: string)
    requires TwoWords(s)
    ensures Normalize(s) == ToLower(s)
  {
    TrimOfTrimmed(s);
    var l := ToLower(s);
    assert TwoWords(l);
    var t := l[1..];
    TrimStartAt(t, 1);
    assert t[1..] == l[2..];
    assert Collapse(l[2..]) == l[2..];
  }

  /** Doubling the space of a two-word name does not change its normal form. */
  lemma NormalizeSpacedTwin(a: string, b: string)
    requires SpacedTwin(a, b)
    ensures Normalize(b) == Normalize(a) == ToLower(a)
  {
    NormalizeTwoWords(a);
    TrimOfTrimmed(b);
    var l := ToLower(b);
    var t := l[1..];
    TrimStartAt(t, 2);
    assert t[2..] == l[3..];
    assert Collapse(l[3..]) == l[3..];
    assert !IsSpace(l[0]) && l[1] == ' ' && l[2] == ' ' && !IsSpace(l[3]);
    assert Collapse(t) == [' '] + l[3..];
    var r := Collapse(l);
    assert r == [l[0]] + Collapse(t);
    assert r[0] == ToLower(a)[0] && r[1] == ToLower(a)[1] && r[2] == ToLower(a)[2];
  }

  /** `t` occurs in `s` starting at position `i`. */
  predicate OccursAt(s: string, t: string, i: int) {
    0 <= i <= |s| - |t| && s[i..i + |t|] == t
  }

  /** `s.includes(t)`: `t` occurs in `s` as a contiguous substring. */
  predicate Contains(s: string, t: string) {
    exists i :: 0 <= i <= |s| - |t| && OccursAt(s, t, i)
  }

  /** A case-insensitive substring match, as an unanchored regular expression with the `i` flag. */
  predicate ContainsIgnoreCase(s: string, t: string) {
    Contains(ToLower(s), ToLower(t))
  }

  /** `s.split(sep)` for a one-character separator: never empty, `"".split(",")` is `[""]`. */
  function Split(s: string, sep: char): (r: seq<string>)
    ensures |r| >= 1
    ensures forall k :: 0 <= k < |r| ==> sep !in r[k]
  {
    if s == [] then [""]
    else
      var rest := Split(s[1..], sep);
      if s[0] == sep then [""] + rest
      else [[s[0]] + rest[0]] + rest[1..]
  }

  /** `xs.join(sep)`. */
  function Join(xs: seq<string>, sep: char): string {
    if |xs| == 0 then ""
    else if |xs| == 1 then xs[0]
    else xs[0] + [sep] + Join(xs[1..], sep)
  }

  lemma {:induction false} SplitWithoutSep(a: string, sep: char)
    requires sep !in a
    ensures Split(a, sep) == [a]
  {
    if a != [] {
      SplitWithoutSep(a[1..], sep);
      assert [a[0]] + a[1..] == a;
    }
  }

  lemma {:induction false} SplitAtFirstSep(a: string, b: string, sep: char)
    requires sep !in a
    ensures Split(a + [sep] + b, sep) == [a] + Split(b, sep)
  {
    if a == [] {
      assert a + [sep] + b == [sep] + b;
      assert ([sep] + b)[1..] == b;
    } else {
      SplitAtFirstSep(a[1..], b, sep);
      assert (a + [sep] + b)[1..] == a[1..] + [sep] + b;
      assert [a[0]] + a[1..] == a;
    }
  }

  /** Splitting a join recovers the parts, provided none of them contains the separator. */
  lemma {:induction false} SplitJoin(xs: seq<string>, sep: char)
    requires |xs| >= 1
    requires forall k :: 0 <= k < |xs| ==> sep !in xs[k]
    ensures Split(Join(xs, sep), sep) == xs
  {
    if |xs| == 1 {
      SplitWithoutSep(xs[0], sep);
    } else {
      SplitJoin(xs[1..], sep);
      SplitAtFirstSep(xs[0], Join(xs[1..], sep), sep);
      assert [xs[0]] + xs[1..] == xs;
    }
  }

  /** A part that starts with `c` joins to a string that starts with `c`. */
  lemma JoinConsFirst(c: char, xs: seq<string>, sep: char)
    requires |xs| >= 1
    ensures Join([[c] + xs[0]] + xs[1..], sep) == [c] + Join(xs, sep)
  {
    var ys := [[c] + xs[0]] + xs[1..];
    if |xs| > 1 {
      assert ys[1..] == xs[1..];
    }
  }

  /** An empty first part joins to a leading separator. */
  lemma JoinConsEmpty(xs: seq<string>, sep: char)
    requires |xs| >= 1
    ensures Join([""] + xs, sep) == [sep] + Join(xs, sep)
  {
    assert ([""] + xs)[1..] == xs;
  }

  /** Joining a split gives back the original string. */
  lemma {:induction false} JoinSplit(s: string, sep: char)
    ensures Join(Split(s, sep), sep) == s
  {
    if s != [] {
      JoinSplit(s[1..], sep);
      var rest := Split(s[1..], sep);
      if s[0] == sep {
        JoinConsEmpty(rest, sep);
      } else {
        JoinConsFirst(s[0], rest, sep);
      }
      assert [s[0]] + s[1..] == s;
    }
  }

  predicate IsDigit(c: char) {
    '0' <= c <= '9'
  }

  function DigitChar(d: nat): (c: char)
    requires d < 10
    ensures IsDigit(c)
  {
    ('0' as int + d) as char
  }

  function DigitValue(c: char): (d: nat)
    requires IsDigit(c)
    ensures d < 10 && DigitChar(d) == c
  {
    c as int - '0' as int
  }

  /** Decimal digits of a natural number, most significant first, no leading zeros. */
  function Digits(n: nat): (r: string)
    ensures |r| >= 1
    ensures forall i :: 0 <= i < |r| ==> IsDigit(r[i])
  {
    if n < 10 then [DigitChar(n)] else Digits(n / 10) + [DigitChar(n % 10)]
  }

  /** The value of a non-empty string of decimal digits. */
  function DigitsValue(s: string): nat
    requires forall i :: 0 <= i < |s| ==> IsDigit(s[i])
  {
    if s == [] then 0 else DigitsValue(s[..|s| - 1]) * 10 + DigitValue(s[|s| - 1])
  }

  lemma {:induction false} DigitsValueOfDigits(n: nat)
    ensures DigitsValue(Digits(n)) == n
  {
    if n >= 10 {
      DigitsValueOfDigits(n / 10);
      var s := Digits(n);
      assert s[..|s| - 1] == Digits(n / 10);
    }
  }

  /** `String(n)` for an integer `n`. */
  function IntToString(n: int): (r: string)
    ensures forall i :: 0 <= i < |r| ==> IsDigit(r[i]) || r[i] == '-'
  {
    if n < 0 then "-" + Digits(-n) else Digits(n)
  }

  /** The longest prefix of `s` made of decimal digits. */
  function DigitPrefix(s: string): (r: string)
    ensures |r| <= |s| && r == s[..|r|]
    ensures forall i :: 0 <= i < |r| ==> IsDigit(r[i])
    ensures |r| < |s| ==> !IsDigit(s[|r|])
  {
    if s != [] && IsDigit(s[0]) then [s[0]] + DigitPrefix(s[1..]) else []
  }

  /** `parseInt(s, 10)`: leading whitespace skipped, an optional sign, then the longest run
      of digits; `None` stands for `NaN` (no digit where one was expected). */
  function ParseInt(s: string): (r: Option<int>)
  {
    var t := TrimStart(s);
    var neg := t != [] && t[0] == '-';
    var body := if t != [] && (t[0] == '-' || t[0] == '+') then t[1..] else t;
    var digits := DigitPrefix(body);
    if digits == [] then None
    else if neg then Some(-(DigitsValue(digits) as int))
    else Some(DigitsValue(digits) as int)
  }

  lemma DigitPrefixOfDigits(s: string)
    requires forall i :: 0 <= i < |s| ==> IsDigit(s[i])
    ensures DigitPrefix(s) == s
  {
  }

  /** `parseInt(String(n), 10) == n`. */
  lemma ParseIntToString(n: int)
    ensures ParseInt(IntToString(n)) == Some(n)
  {
    var s := IntToString(n);
    var d := if n < 0 then -n else n;
    DigitsValueOfDigits(d);
    DigitPrefixOfDigits(Digits(d));
    assert s[0] == '-' || IsDigit(s[0]);
    assert !IsSpace(s[0]);
    assert TrimStart(s) == s;
    if n < 0 {
      assert s[1..] == Digits(d);
    }
  }

  /** Code-point lexicographic order on strings: how the store compares strings when sorting. */
  predicate LexLe(a: string, b: string) {
    a == [] || (b != [] && (a[0] < b[0] || (a[0] == b[0] && LexLe(a[1..], b[1..]))))
  }

  lemma {:induction false} LexLeTotal(a: string, b: string)
    ensures LexLe(a, b) || LexLe(b, a)
  {
    if a != [] && b != [] && a[0] == b[0] {
      LexLeTotal(a[1..], b[1..]);
    }
  }

  lemma {:induction false} LexLeTransitive(a: string, b: string, c: string)
    requires LexLe(a, b) && LexLe(b, c)
    ensures LexLe(a, c)
  {
    if a != [] && b != [] && c != [] && a[0] == b[0] && b[0] == c[0] {
      LexLeTransitive(a[1..], b[1..], c[1..]);
    }
  }

  datatype Option<+T> = None | Some(value: T)
}
