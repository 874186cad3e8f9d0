/** String and number helpers the engine takes from its `strutil.h` and from the
    C++ library: trim, split, startsWith, join, the all-capitals test built from
    toUpper/toLower, `std::stoi`, the decimal output of `operator<<` on `int`,
    and the key order of `std::map<std::string, ...>`.
    `strutil.h` is not part of this model; the definitions below are the
    behaviour the engine relies on. */
module StrUtil {

  datatype Option<+T> = None | Some(value: T)

  /** A C++ `int` on the platforms the game targets. */
  type i32 = x: int | -0x8000_0000 <= x < 0x8000_0000

  // ---------------------------------------------------------------- trimming

  predicate IsSpace(c: char) {
    c == ' ' || c == '\t' || c == '\n' || c == '\r'
  }

  /** The first position at or after `i` that does not hold white space, or `|s|`. */
  function FirstNonSpace(s: string, i: nat): (j: nat)
    requires i <= |s|
    ensures i <= j <= |s| && (j < |s| ==> !IsSpace(s[j]))
    decreases |s| - i
  {
    if i < |s| && IsSpace(s[i]) then FirstNonSpace(s, i + 1) else i
  }

  /** The end of `s[..j]` once its trailing white space is dropped. */
  function EndNonSpace(s: string, j: nat): (e: nat)
    requires j <= |s|
    ensures e <= j && (e > 0 ==> !IsSpace(s[e - 1]))
    decreases j
  {
    if j > 0 && IsSpace(s[j - 1]) then EndNonSpace(s, j - 1) else j
  }

  lemma {:induction false} FirstNonSpaceSkips(s: string, i: nat)
    requires i <= |s|
    ensures forall k | i <= k < FirstNonSpace(s, i) :: IsSpace(s[k])
    decreases |s| - i
  {
    if i < |s| && IsSpace(s[i]) {
      FirstNonSpaceSkips(s, i + 1);
    }
  }

  lemma {:induction false} EndNonSpaceSkips(s: string, j: nat)
    requires j <= |s|
    ensures forall k | EndNonSpace(s, j) <= k < j :: IsSpace(s[k])
    decreases j
  {
    if j > 0 && IsSpace(s[j - 1]) {
      EndNonSpaceSkips(s, j - 1);
    }
  }

  /** Drops leading white space. */
  function TrimLeft(s: string): (t: string)
    ensures |t| <= |s|
    ensures t == [] || !IsSpace(t[0])
  {
    s[FirstNonSpace(s, 0)..]
  }

  /** Drops trailing white space. */
  function TrimRight(s: string): (t: string)
    ensures |t| <= |s|
    ensures t == [] || !IsSpace(t[|t| - 1])
    ensures t != [] ==> t[0] == s[0]
  {
    s[..EndNonSpace(s, |s|)]
  }

  function Trim(s: string): (t: string)
    ensures t == [] || (!IsSpace(t[0]) && !IsSpace(t[|t| - 1]))
  {
    TrimRight(TrimLeft(s))
  }

  /** `TrimLeft` keeps the longest suffix that does not start with white space. */
  lemma TrimLeftSuffix(s: string)
    ensures var t := TrimLeft(s);
            t == s[|s| - |t|..] && forall k | 0 <= k < |s| - |t| :: IsSpace(s[k])
  {
    FirstNonSpaceSkips(s, 0);
  }

  /** `TrimRight` keeps the longest prefix that does not end with white space. */
  lemma TrimRightPrefix(s: string)
    ensures var t := TrimRight(s);
            t == s[..|t|] && forall k | |t| <= k < |s| :: IsSpace(s[k])
  {
    EndNonSpaceSkips(s, |s|);
  }

  /** A line that neither starts nor ends with white space is left as it is. */
  lemma TrimKeeps(s: string)
    requires s != [] && !IsSpace(s[0]) && !IsSpace(s[|s| - 1])
    ensures Trim(s) == s
  {
  }

  // ---------------------------------------------------------------- prefixes, split, join

  /** `startsWith(prefix, s)`: the prefix comes first, as in the repository's helper. */
  predicate StartsWith(prefix: string, s: string) {
    |prefix| <= |s| && SameFrom(prefix, s, 0)
  }

  /** `prefix` and `s` agree from position `i` to the end of `prefix`. */
  predicate SameFrom(prefix: string, s: string, i: nat)
    requires |prefix| <= |s|
    decreases |prefix| - i
  {
    i >= |prefix| || (prefix[i] == s[i] && SameFrom(prefix, s, i + 1))
  }

  lemma {:induction false} SameFromAll(prefix: string, s: string, i: nat)
    requires |prefix| <= |s|
    ensures SameFrom(prefix, s, i) <==> forall k | i <= k < |prefix| :: prefix[k] == s[k]
    decreases |prefix| - i
  {
    if i < |prefix| {
      SameFromAll(prefix, s, i + 1);
    }
  }

  /** `StartsWith` is the slice comparison it abbreviates. */
  lemma StartsWithSlice(prefix: string, s: string)
    ensures StartsWith(prefix, s) <==> |prefix| <= |s| && s[..|prefix|] == prefix
  {
    if |prefix| <= |s| {
      SameFromAll(prefix, s, 0);
      assert s[..|prefix|] == prefix <==> forall k | 0 <= k < |prefix| :: prefix[k] == s[k];
    }
  }

  /** Splits at every occurrence of `d`; empty fields are kept, so there is one field more than there are delimiters. */
  function Split(s: string, d: char): (fields: seq<string>)
    ensures |fields| == Count(s, d) + 1
    ensures forall k | 0 <= k < |fields| :: d !in fields[k]
    decreases |s|
  {
    if |s| == 0 then [""]
    else
      var rest := Split(s[1..], d);
      if s[0] == d then [""] + rest
      else [[s[0]] + rest[0]] + rest[1..]
  }

  function Count(s: string, d: char): nat
    decreases |s|
  {
    if |s| == 0 then 0 else (if s[0] == d then 1 else 0) + Count(s[1..], d)
  }

  /** A string without the delimiter is one field. */
  lemma {:induction false} SplitNone(s: string, d: char)
    requires d !in s
    ensures Split(s, d) == [s]
    decreases |s|
  {
    if |s| > 0 {
      SplitNone(s[1..], d);
      assert [s[0]] + s[1..] == s;
    }
  }

  /** Splitting `a + [d] + b` where `a` has no delimiter yields `a` and then the fields of `b`. */
  lemma {:induction false} SplitFirst(a: string, d: char, b: string)
    requires d !in a
    ensures Split(a + [d] + b, d) == [a] + Split(b, d)
    decreases |a|
  {
    var s := a + [d] + b;
    if |a| == 0 {
      assert s[1..] == b;
    } else {
      assert s[1..] == a[1..] + [d] + b;
      SplitFirst(a[1..], d, b);
      assert [a[0]] + a[1..] == a;
    }
  }

  /** `join(parts, sep)`: the parts with `sep` between consecutive ones. */
  function Join(parts: seq<string>, sep: string): (s: string)
    ensures parts == [] ==> s == []
    ensures |parts| == 1 ==> s == parts[0]
  {
    if |parts| == 0 then ""
    else if |parts| == 1 then parts[0]
    else parts[0] + sep + Join(parts[1..], sep)
  }

  // ---------------------------------------------------------------- letters

  predicate IsLowerLetter(c: char) { 'a' <= c <= 'z' }
  predicate IsUpperLetter(c: char) { 'A' <= c <= 'Z' }

  /** `toUpper(w) == w && toLower(w) != w`: the word has no lower-case letter and at least one upper-case letter. */
  predicate IsAllCaps(w: string) {
    (forall k | 0 <= k < |w| :: !IsLowerLetter(w[k])) && (exists k | 0 <= k < |w| :: IsUpperLetter(w[k]))
  }

  /** The text up to the first space (all of it when there is none). */
  function FirstWord(s: string): (w: string)
    ensures |w| <= |s| && w == s[..|w|] && ' ' !in w
    ensures |w| < |s| ==> s[|w|] == ' '
  {
    WordEndSkips(s, 0);
    s[..WordEnd(s, 0)]
  }

  /** The first position at or after `i` that holds a space, or `|s|`. */
  function WordEnd(s: string, i: nat): (j: nat)
    requires i <= |s|
    ensures i <= j <= |s| && (j < |s| ==> s[j] == ' ')
    decreases |s| - i
  {
    if i < |s| && s[i] != ' ' then WordEnd(s, i + 1) else i
  }

  lemma {:induction false} WordEndSkips(s: string, i: nat)
    requires i <= |s|
    ensures forall k | i <= k < WordEnd(s, i) :: s[k] != ' '
    decreases |s| - i
  {
    if i < |s| && s[i] != ' ' {
      WordEndSkips(s, i + 1);
    }
  }

  // ---------------------------------------------------------------- decimal numbers

  predicate IsDigit(c: char) { '0' <= c <= '9' }

  predicate AllDigits(s: string) { forall k | 0 <= k < |s| :: IsDigit(s[k]) }

  /** The value of a run of decimal digits (meaningful when `AllDigits(s)`). */
  function DigitsValue(s: string): int
    decreases |s|
  {
    if |s| == 0 then 0 else 10 * DigitsValue(s[..|s| - 1]) + (s[|s| - 1] as int - '0' as int)
  }

  /** Decimal digits of `n` without leading zeros; reading them back gives `n`. */
  function NatToString(n: nat): (s: string)
    ensures s != []
    ensures DigitsValue(s) == n
    ensures s[0] != '0' || n == 0
  {
    if n < 10 then [('0' as int + n) as char]
    else
      var p := NatToString(n / 10);
      var s := p + [('0' as int + n % 10) as char];
      assert s[..|s| - 1] == p;
      s
  }

  lemma {:induction false} NatToStringDigits(n: nat)
    ensures AllDigits(NatToString(n))
    decreases n
  {
    if n >= 10 {
      NatToStringDigits(n / 10);
      assert NatToString(n) == NatToString(n / 10) + [('0' as int + n % 10) as char];
    }
  }

  /** What `operator<<` writes for an `int`. */
  function IntToString(v: int): (s: string)
    ensures s != [] && !IsSpace(s[0]) && !IsSpace(s[|s| - 1])
  {
    NatToStringDigits(if v < 0 then -v else v);
    if v < 0 then "-" + NatToString(-v) else NatToString(v)
  }

  /** The white space of `isspace` in the C locale, which `std::stoi` skips: space, tab,
      line feed, vertical tab, form feed and carriage return. */
  predicate IsCSpace(c: char) {
    c == ' ' || '\t' <= c <= '\r'
  }

  /** Index of the first character at or after `i` that is not C white space. */
  function SkipSpaces(s: string, i: nat): (j: nat)
    requires i <= |s|
    ensures i <= j <= |s| && (j < |s| ==> !IsCSpace(s[j]))
    ensures forall k | i <= k < j :: IsCSpace(s[k])
    decreases |s| - i
  {
    if i < |s| && IsCSpace(s[i]) then SkipSpaces(s, i + 1) else i
  }

  /** Index just past the run of digits that starts at `i`. */
  function SkipDigits(s: string, i: nat): (j: nat)
    requires i <= |s|
    ensures i <= j <= |s|
    decreases |s| - i
  {
    if i < |s| && IsDigit(s[i]) then SkipDigits(s, i + 1) else i
  }

  /** `SkipDigits` reaches the end exactly when only digits remain. */
  lemma {:induction false} SkipDigitsEnd(s: string, i: nat)
    requires i <= |s|
    ensures SkipDigits(s, i) == |s| <==> forall k | i <= k < |s| :: IsDigit(s[k])
    decreases |s| - i
  {
    if i < |s| {
      SkipDigitsEnd(s, i + 1);
    }
  }

  /** `std::stoi`: leading white space, an optional sign, then as many digits as there are.
      `None` stands for the exceptions it throws: no digit at all, or a value outside `int`. */
  function Stoi(s: string): Option<i32> {
    SignedNumber(s[SkipSpaces(s, 0)..])
  }

  /** What `stoi` reads once the white space is skipped. */
  function SignedNumber(s: string): Option<i32> {
    var signed := |s| > 0 && (s[0] == '-' || s[0] == '+');
    var b := if signed then 1 else 0;
    var e := SkipDigits(s, b);
    if e == b then None
    else
      var magnitude: int := DigitsValue(s[b..e]);
      var v: int := if signed && s[0] == '-' then -magnitude else magnitude;
      if -0x8000_0000 <= v < 0x8000_0000 then Some(v) else None
  }

  /** Putting a character in front moves where the white space ends by one. */
  lemma {:induction false} SkipSpacesShift(c: char, s: string, i: nat)
    requires i <= |s|
    ensures SkipSpaces([c] + s, i + 1) == SkipSpaces(s, i) + 1
    decreases |s| - i
  {
    if i < |s| {
      assert ([c] + s)[i + 1] == s[i];
      if IsCSpace(s[i]) {
        SkipSpacesShift(c, s, i + 1);
      }
    }
  }

  /** `stoi` skips every white space character of the C locale before the number, the
      vertical tab and the form feed included. */
  lemma StoiSkipsCSpace(c: char, s: string)
    requires IsCSpace(c)
    ensures Stoi([c] + s) == Stoi(s)
  {
    SkipSpacesShift(c, s, 0);
    var a := SkipSpaces(s, 0);
    assert ([c] + s)[a + 1..] == s[a..];
  }

  /** Reading back what was written: `stoi` inverts the decimal output of every `int`. */
  lemma StoiIntToString(v: i32)
    ensures Stoi(IntToString(v)) == Some(v)
  {
    var s := IntToString(v);
    NatToStringDigits(if v < 0 then -(v as int) else v);
    assert SkipSpaces(s, 0) == 0;
    if v < 0 {
      var d := NatToString(-(v as int));
      assert s == "-" + d;
      assert s[1..|s|] == d;
      SkipDigitsEnd(s, 1);
    } else {
      assert s == NatToString(v);
      assert s[0] != '-' && s[0] != '+';
      assert s[0..|s|] == s;
      SkipDigitsEnd(s, 0);
    }
  }

  /** The decimal output of `v` is a minus sign exactly when `v` is negative, then digits only. */
  lemma IntToStringDigits(v: int)
    ensures var s := IntToString(v);
            (s[0] == '-' <==> v < 0) && SkipDigits(s, if v < 0 then 1 else 0) == |s|
  {
    var s := IntToString(v);
    if v < 0 {
      var d := NatToString(-v);
      NatToStringDigits(-v);
      assert s == "-" + d;
      forall k | 1 <= k < |s| ensures IsDigit(s[k]) {
        assert s[k] == d[k - 1];
      }
      SkipDigitsEnd(s, 1);
    } else {
      NatToStringDigits(v);
      assert IsDigit(s[0]);
      SkipDigitsEnd(s, 0);
    }
  }

  // ---------------------------------------------------------------- key order of std::map<std::string, _>

  /** Lexicographic order of `std::string::compare`, character by character. */
  predicate Less(a: string, b: string)
    decreases |a|
  {
    if |a| == 0 then |b| > 0
    else if |b| == 0 then false
    else if a[0] != b[0] then a[0] < b[0]
    else Less(a[1..], b[1..])
  }

  lemma {:induction false} LessIrreflexive(a: string)
    ensures !Less(a, a)
    decreases |a|
  {
    if |a| > 0 { LessIrreflexive(a[1..]); }
  }

  lemma {:induction false} LessTransitive(a: string, b: string, c: string)
    requires Less(a, b) && Less(b, c)
    ensures Less(a, c)
    decreases |a|
  {
    if |a| > 0 && |b| > 0 && |c| > 0 && a[0] == b[0] && b[0] == c[0] {
      LessTransitive(a[1..], b[1..], c[1..]);
    }
  }

  lemma {:induction false} LessTotal(a: string, b: string)
    requires a != b
    ensures Less(a, b) || Less(b, a)
    decreases |a|
  {
    if |a| > 0 && |b| > 0 && a[0] == b[0] {
      assert a == [a[0]] + a[1..] && b == [b[0]] + b[1..];
      LessTotal(a[1..], b[1..]);
    }
  }

  lemma {:induction false} LessAsymmetric(a: string, b: string)
    requires Less(a, b)
    ensures !Less(b, a)
  {
    if Less(b, a) {
      LessTransitive(a, b, a);
      LessIrreflexive(a);
    }
  }

  ghost predicate IsLeast(m: string, s: set<string>) {
    m in s && forall x | x in s :: x == m || Less(m, x)
  }

  lemma {:induction false} LeastExists(s: set<string>)
    requires s != {}
    ensures exists m :: IsLeast(m, s)
    decreases |s|
  {
    var x :| x in s;
    if s != {x} {
      var rest := s - {x};
      LeastExists(rest);
      var m :| IsLeast(m, rest);
      if Less(x, m) {
        forall y | y in s ensures y == x || Less(x, y) {
          if y != x && y != m { LessTransitive(x, m, y); }
        }
        assert IsLeast(x, s);
      } else {
        LessTotal(x, m);
        assert IsLeast(m, s);
      }
    } else {
      assert IsLeast(x, s);
    }
  }

  lemma LeastUnique(m1: string, m2: string, s: set<string>)
    requires IsLeast(m1, s) && IsLeast(m2, s)
    ensures m1 == m2
  {
    if m1 != m2 {
      LessAsymmetric(m1, m2);
    }
  }

  ghost predicate StrictlySorted(ks: seq<string>) {
    forall a, b | 0 <= a < b < |ks| :: Less(ks[a], ks[b])
  }

  /** `ks` lists the elements of `s`, each once, in increasing order. */
  ghost predicate SortedListing(ks: seq<string>, s: set<string>) {
    && |ks| == |s|
    && (forall x :: x in ks <==> x in s)
    && StrictlySorted(ks)
  }

  /** A sorted listing starts with the least element and goes on with a sorted listing of the others. */
  lemma ListingTail(ks: seq<string>, s: set<string>)
    requires SortedListing(ks, s) && ks != []
    ensures IsLeast(ks[0], s) && SortedListing(ks[1..], s - {ks[0]})
  {
    var m := ks[0];
    forall x | x in s ensures x == m || Less(m, x) {
      var i :| 0 <= i < |ks| && ks[i] == x;
    }
    forall x ensures x in ks[1..] <==> x in s - {m} {
      if x in ks[1..] {
        var i :| 0 <= i < |ks[1..]| && ks[1..][i] == x;
        assert Less(ks[0], ks[i + 1]);
        LessIrreflexive(m);
      }
    }
  }

  lemma {:induction false} ListingExists(s: set<string>)
    ensures exists ks :: SortedListing(ks, s)
    decreases |s|
  {
    if s == {} {
      assert SortedListing([], s);
    } else {
      LeastExists(s);
      var m :| IsLeast(m, s);
      ListingExists(s - {m});
      var rest :| SortedListing(rest, s - {m});
      var ks := [m] + rest;
      forall a, b | 0 <= a < b < |ks| ensures Less(ks[a], ks[b]) {
        assert ks[b] == rest[b - 1] && rest[b - 1] in s - {m};
        if a > 0 {
          assert ks[a] == rest[a - 1];
        }
      }
      forall x ensures x in ks <==> x in s {
        assert x in ks <==> x == m || x in rest;
      }
      assert SortedListing(ks, s);
    }
  }

  lemma {:induction false} ListingUnique(k1: seq<string>, k2: seq<string>, s: set<string>)
    requires SortedListing(k1, s) && SortedListing(k2, s)
    ensures k1 == k2
    decreases |s|
  {
    if s != {} {
      ListingTail(k1, s);
      ListingTail(k2, s);
      LeastUnique(k1[0], k2[0], s);
      ListingUnique(k1[1..], k2[1..], s - {k1[0]});
      assert k1 == [k1[0]] + k1[1..] && k2 == [k2[0]] + k2[1..];
    }
  }

  /** The keys of a map in the order a `std::map` visits them. */
  ghost function SortedKeys(s: set<string>): (ks: seq<string>)
    ensures |ks| == |s|
    ensures forall x :: x in ks <==> x in s
    ensures StrictlySorted(ks)
  {
    ListingExists(s);
    var ks :| SortedListing(ks, s);
    ks
  }

  /** Peeling the least key off the front. */
  lemma SortedKeysFirst(s: set<string>, m: string)
    requires IsLeast(m, s)
    ensures SortedKeys(s) == [m] + SortedKeys(s - {m})
  {
    var ks := SortedKeys(s);
    ListingTail(ks, s);
    LeastUnique(m, ks[0], s);
    ListingUnique(ks[1..], SortedKeys(s - {m}), s - {m});
    assert ks == [ks[0]] + ks[1..];
  }
}
