/**
 Kernel version comparison and the choice of the latest installed kernel.

 Versions are cut into tokens; two tokens compare as integers when both parse as integers and as
 strings otherwise. The mixture is not transitive in general. `TransitiveIff` says exactly for which
 sets of tokens it is, and the choice of the latest kernel is right for those.
 Strings are compared code point by code point, which is Go's byte order on valid UTF-8.
 */
module Kernel {
  import opened Options
  import opened Text
  import opened Decimal
  import opened Sorting

  // ---------------------------------------------------------------- tokens

  const MIN_INT: int := -0x8000_0000_0000_0000
  const MAX_INT: int := 0x7FFF_FFFF_FFFF_FFFF

  /** strconv.Atoi on a 64-bit platform: optional sign, decimal digits, in range. */
  function Atoi(s: string): Option<int> {
    var unsigned := if s != [] && (s[0] == '+' || s[0] == '-') then s[1..] else s;
    if !AllDigits(unsigned) then None
    else
      var n: int := if s[0] == '-' then 0 - DigitsValue(unsigned) else DigitsValue(unsigned);
      if MIN_INT <= n <= MAX_INT then Some(n) else None
  }

  /** Go's < on strings, as -1, 0 or 1. */
  function CompareStrings(a: string, b: string): int {
    if a == [] then (if b == [] then 0 else -1)
    else if b == [] then 1
    else if a[0] < b[0] then -1
    else if a[0] > b[0] then 1
    else CompareStrings(a[1..], b[1..])
  }

  function CompareTokens(a: string, b: string): int {
    var m, n := Atoi(a), Atoi(b);
    if m.Some? && n.Some? then
      if m.value < n.value then -1 else if m.value > n.value then 1 else 0
    else CompareStrings(a, b)
  }

  // ---------------------------------------------------------------- versions

  function ReplaceAll(s: string, from: char, to: char): string {
    if s == [] then [] else [if s[0] == from then to else s[0]] + ReplaceAll(s[1..], from, to)
  }

  function ParseKernelVersion(version: string): seq<string> {
    Fields(ReplaceAll(ReplaceAll(version, '.', ' '), '-', ' '))
  }

  /** The i-th token, or the empty token past the end. */
  function Token(parts: seq<string>, i: nat): string {
    if i < |parts| then parts[i] else ""
  }

  function MaxLen(a: seq<string>, b: seq<string>): nat {
    if |a| < |b| then |b| else |a|
  }

  /** The first difference at or after position `i`. */
  function CompareFrom(a: seq<string>, b: seq<string>, i: nat): int
    decreases MaxLen(a, b) - i
  {
    if i >= MaxLen(a, b) then 0
    else if CompareTokens(Token(a, i), Token(b, i)) != 0 then CompareTokens(Token(a, i), Token(b, i))
    else CompareFrom(a, b, i + 1)
  }

  function CompareParts(a: seq<string>, b: seq<string>): int { CompareFrom(a, b, 0) }

  function CompareVersions(v1: string, v2: string): int {
    CompareParts(ParseKernelVersion(v1), ParseKernelVersion(v2))
  }

  /** One pair of tokens: as integers when both are, else as strings. */
  method CompareOne(p1: string, p2: string) returns (r: int)
    ensures r == CompareTokens(p1, p2) && r in {-1, 0, 1}
  {
    StringOrder(p1, p2);
    var n1, n2 := Atoi(p1), Atoi(p2);
    if n1.Some? && n2.Some? {
      if n1.value < n2.value {
        return -1;
      }
      if n1.value > n2.value {
        return 1;
      }
      return 0;
    }
    var c := CompareStrings(p1, p2);
    if c < 0 {
      return -1;
    }
    if c > 0 {
      return 1;
    }
    return 0;
  }

  /** The comparison loop. */
  method CompareTokenLists(parts1: seq<string>, parts2: seq<string>) returns (r: int)
    ensures r == CompareParts(parts1, parts2) && r in {-1, 0, 1}
  {
    var maxLen := |parts1|;
    if |parts2| > maxLen {
      maxLen := |parts2|;
    }
    for i := 0 to maxLen
      invariant CompareParts(parts1, parts2) == CompareFrom(parts1, parts2, i)
    {
      var p1, p2 := "", "";
      if i < |parts1| {
        p1 := parts1[i];
      }
      if i < |parts2| {
        p2 := parts2[i];
      }
      r := CompareOne(p1, p2);
      if r != 0 {
        return;
      }
    }
    return 0;
  }

  method CompareKernelVersions(v1: string, v2: string) returns (r: int)
    ensures r == CompareVersions(v1, v2)
    ensures r in {-1, 0, 1}
  {
    r := CompareTokenLists(ParseKernelVersion(v1), ParseKernelVersion(v2));
  }

  // ---------------------------------------------------------------- order facts

  lemma {:induction false} StringOrder(a: string, b: string)
    ensures CompareStrings(a, b) == -CompareStrings(b, a)
    ensures CompareStrings(a, b) in {-1, 0, 1}
    ensures CompareStrings(a, b) == 0 <==> a == b
    decreases |a|
  {
    if a == [] || b == [] {
    } else {
      StringOrder(a[1..], b[1..]);
      if a[1..] == b[1..] && a[0] == b[0] {
        assert a == [a[0]] + a[1..] == [b[0]] + b[1..] == b;
      }
    }
  }

  lemma {:induction false} StringOrderTransitive(a: string, b: string, c: string)
    requires CompareStrings(a, b) <= 0 && CompareStrings(b, c) <= 0
    ensures CompareStrings(a, c) <= 0
    decreases |a|
  {
    if a == [] || b == [] || c == [] || !(a[0] == b[0] == c[0]) {
    } else {
      StringOrderTransitive(a[1..], b[1..], c[1..]);
    }
  }

  lemma {:induction false} TokenOrder(a: string, b: string)
    ensures CompareTokens(a, b) == -CompareTokens(b, a)
    ensures CompareTokens(a, b) in {-1, 0, 1}
  {
    StringOrder(a, b);
  }

  /** On every pair of versions, well formed or not, swapping the arguments flips the sign. */
  lemma {:induction false} Antisymmetric(a: seq<string>, b: seq<string>, i: nat)
    ensures CompareFrom(a, b, i) == -CompareFrom(b, a, i)
    decreases MaxLen(a, b) - i
  {
    if i >= MaxLen(a, b) {
    } else {
      TokenOrder(Token(a, i), Token(b, i));
      Antisymmetric(a, b, i + 1);
    }
  }

  // ---------------------------------------------------------------- what the comparison means

  /** All tokens before position `i` compare level. */
  predicate LevelUpTo(a: seq<string>, b: seq<string>, i: nat) {
    forall j :: 0 <= j < i ==> CompareTokens(Token(a, j), Token(b, j)) == 0
  }

  lemma {:induction false} LevelTokenSkipped(a: seq<string>, b: seq<string>, i: nat)
    requires i < MaxLen(a, b) && CompareTokens(Token(a, i), Token(b, i)) == 0
    ensures CompareFrom(a, b, i) == CompareFrom(a, b, i + 1)
  {}

  lemma {:induction false} LevelTokensSkipped(a: seq<string>, b: seq<string>, i: nat)
    requires i <= MaxLen(a, b) && LevelUpTo(a, b, i)
    ensures CompareParts(a, b) == CompareFrom(a, b, i)
  {
    if i == 0 {
    } else {
      LevelTokensSkipped(a, b, i - 1);
      LevelTokenSkipped(a, b, i - 1);
    }
  }

  /** The first tokens that differ decide, at whatever position they stand. */
  lemma {:induction false} FirstDifferenceDecides(a: seq<string>, b: seq<string>, i: nat)
    requires LevelUpTo(a, b, i) && CompareTokens(Token(a, i), Token(b, i)) != 0
    ensures CompareParts(a, b) == CompareTokens(Token(a, i), Token(b, i))
  {
    assert CompareTokens("", "") == 0;
    LevelTokensSkipped(a, b, i);
  }

  /** Versions compare level only if all their tokens do, up to the longer length. */
  lemma {:induction false} LevelIff(a: seq<string>, b: seq<string>)
    ensures CompareParts(a, b) == 0 <==>
            forall j :: 0 <= j && (j < |a| || j < |b|) ==> CompareTokens(Token(a, j), Token(b, j)) == 0
  {
    if LevelUpTo(a, b, MaxLen(a, b)) {
      LevelTokensSkipped(a, b, MaxLen(a, b));
    } else {
      var j := FirstDifference(a, b, MaxLen(a, b));
      FirstDifferenceDecides(a, b, j);
    }
  }

  lemma {:induction false} FirstDifference(a: seq<string>, b: seq<string>, n: nat) returns (j: nat)
    requires !LevelUpTo(a, b, n)
    ensures j < n && LevelUpTo(a, b, j) && CompareTokens(Token(a, j), Token(b, j)) != 0
  {
    if LevelUpTo(a, b, n - 1) {
      j := n - 1;
    } else {
      j := FirstDifference(a, b, n - 1);
    }
  }

  /** Strings: the first characters that differ decide, and a proper prefix comes first. */
  lemma {:induction false} StringMeaning(common: string, a: string, b: string)
    ensures a == "" && b != "" ==> CompareStrings(common + a, common + b) == -1
    ensures a != "" && b != "" && a[0] < b[0] ==> CompareStrings(common + a, common + b) == -1
    ensures a == b ==> CompareStrings(common + a, common + b) == 0
    decreases |common|
  {
    if common == "" {
      assert common + a == a && common + b == b;
      StringOrder(a, b);
    } else {
      assert (common + a)[1..] == common[1..] + a && (common + b)[1..] == common[1..] + b;
      StringMeaning(common[1..], a, b);
    }
  }

  lemma {:induction false} AtoiOfDigits(s: string)
    requires AllDigits(s)
    ensures Atoi(s) == if DigitsValue(s) <= MAX_INT then Some(DigitsValue(s)) else None
  {
    assert IsDigit(s[0]);
  }

  lemma {:induction false} AtoiOfSigned(sign: char, s: string)
    requires AllDigits(s) && (sign == '+' || sign == '-')
    ensures var n: int := if sign == '-' then 0 - DigitsValue(s) else DigitsValue(s);
            Atoi([sign] + s) == if MIN_INT <= n <= MAX_INT then Some(n) else None
  {
    assert ([sign] + s)[1..] == s;
  }

  /** Decimal numerals in range are integers, with or without a sign. */
  lemma {:induction false} AtoiOfNumeral(n: nat)
    ensures Atoi(Print(n)) == if n <= MAX_INT then Some(n) else None
    ensures Atoi(['+'] + Print(n)) == Atoi(Print(n))
    ensures var negative: int := 0 - n;
            Atoi(['-'] + Print(n)) == if MIN_INT <= negative then Some(negative) else None
  {
    PrintReads(n);
    AtoiOfDigits(Print(n));
    AtoiOfSigned('+', Print(n));
    AtoiOfSigned('-', Print(n));
  }

  /** Anything but a sign in front and digits behind it is a word. */
  lemma {:induction false} AtoiOfWord(s: string)
    requires s == "" || s == "+" || s == "-" || exists i :: 0 <= i < |s| && !IsDigit(s[i]) && (i > 0 || s[0] !in "+-")
    ensures Atoi(s) == None
  {
    if s != "" && s != "+" && s != "-" {
      var i :| 0 <= i < |s| && !IsDigit(s[i]) && (i > 0 || s[0] !in "+-");
      assert s[0] == '+' || s[0] == '-' ==> s[1..][i - 1] == s[i];
    }
  }

  /** Behind equal tokens the larger number is the later version, whatever follows. */
  lemma {:induction false} LargerNumberIsLater(common: seq<string>, m: nat, n: nat, a: seq<string>, b: seq<string>)
    requires m < n <= MAX_INT
    ensures CompareParts(common + [Print(m)] + a, common + [Print(n)] + b) == -1
  {
    var x, y := common + [Print(m)] + a, common + [Print(n)] + b;
    AtoiOfNumeral(m);
    AtoiOfNumeral(n);
    forall j | 0 <= j < |common|
      ensures CompareTokens(Token(x, j), Token(y, j)) == 0
    {
      StringOrder(common[j], common[j]);
    }
    FirstDifferenceDecides(x, y, |common|);
  }

  // ---------------------------------------------------------------- what the tokens are

  predicate IsToken(t: string) { t != "" && NoSpace(t) && '.' !in t && '-' !in t }

  /** Tokens with a dot or a dash behind each but the last. */
  function Written(tokens: seq<string>, marks: seq<char>): string
    requires |tokens| == |marks| + 1
    decreases |marks|
  {
    if marks == [] then tokens[0] else tokens[0] + [marks[0]] + Written(tokens[1..], marks[1..])
  }

  function Spaced(s: string): string { ReplaceAll(ReplaceAll(s, '.', ' '), '-', ' ') }

  lemma {:induction false} ReplaceAppend(s: string, t: string, from: char, to: char)
    ensures ReplaceAll(s + t, from, to) == ReplaceAll(s, from, to) + ReplaceAll(t, from, to)
    decreases |s|
  {
    if s == "" {
      assert s + t == t;
    } else {
      assert (s + t)[1..] == s[1..] + t;
      ReplaceAppend(s[1..], t, from, to);
    }
  }

  lemma {:induction false} SpacedToken(token: string, mark: char, rest: string)
    requires IsToken(token) && (mark == '.' || mark == '-')
    ensures Spaced(token + [mark] + rest) == token + " " + Spaced(rest)
  {
    ReplaceAppend(token + [mark], rest, '.', ' ');
    ReplaceAppend(token, [mark], '.', ' ');
    ReplaceNothing(token, '.', ' ');
    var once := ReplaceAll([mark], '.', ' ');
    ReplaceAppend(token + once, ReplaceAll(rest, '.', ' '), '-', ' ');
    ReplaceAppend(token, once, '-', ' ');
    ReplaceNothing(token, '-', ' ');
    assert ReplaceAll(once, '-', ' ') == " ";
  }

  lemma {:induction false} SpacedWritten(tokens: seq<string>, marks: seq<char>)
    requires |tokens| == |marks| + 1 && forall i :: 0 <= i < |tokens| ==> IsToken(tokens[i])
    requires forall i :: 0 <= i < |marks| ==> marks[i] == '.' || marks[i] == '-'
    ensures Spaced(Written(tokens, marks)) == Join(tokens, " ")
    decreases |marks|
  {
    if marks == [] {
      ReplaceNothing(tokens[0], '.', ' ');
      ReplaceNothing(tokens[0], '-', ' ');
    } else {
      SpacedToken(tokens[0], marks[0], Written(tokens[1..], marks[1..]));
      SpacedWritten(tokens[1..], marks[1..]);
    }
  }

  /** Every version written of tokens with dots and dashes between them is read as those tokens. */
  lemma {:induction false} WrittenVersionRead(tokens: seq<string>, marks: seq<char>)
    requires |tokens| == |marks| + 1 && forall i :: 0 <= i < |tokens| ==> IsToken(tokens[i])
    requires forall i :: 0 <= i < |marks| ==> marks[i] == '.' || marks[i] == '-'
    ensures ParseKernelVersion(Written(tokens, marks)) == tokens
  {
    SpacedWritten(tokens, marks);
    FieldsOfJoin(tokens);
  }

  // ---------------------------------------------------------------- when the order is transitive

  ghost predicate Numeric(t: string) { Atoi(t).Some? }

  /** A word lies between two numbers whose order as strings is not their order as numbers. */
  ghost predicate Wedge(x: string, y: string, word: string) {
    && Numeric(x) && Numeric(y) && !Numeric(word)
    && Atoi(x).value <= Atoi(y).value
    && CompareStrings(y, word) < 0 && CompareStrings(word, x) < 0
  }

  ghost predicate WedgeFree(tokens: set<string>) {
    forall x, y, word :: x in tokens && y in tokens && word in tokens ==> !Wedge(x, y, word)
  }

  ghost predicate Over(version: seq<string>, tokens: set<string>) {
    forall i :: 0 <= i < |version| ==> version[i] in tokens
  }

  ghost predicate TransitiveOver(tokens: set<string>) {
    forall a, b, c | Over(a, tokens) && Over(b, tokens) && Over(c, tokens) ::
      CompareParts(a, b) <= 0 && CompareParts(b, c) <= 0 ==> CompareParts(a, c) <= 0
  }

  lemma {:induction false} TokensTransitive(a: string, b: string, c: string, tokens: set<string>)
    requires WedgeFree(tokens) && {a, b, c} <= tokens + {""}
    requires CompareTokens(a, b) <= 0 && CompareTokens(b, c) <= 0
    ensures CompareTokens(a, c) <= 0
  {
    StringOrder(a, b); StringOrder(b, c); StringOrder(a, c);
    if CompareStrings(a, b) <= 0 && CompareStrings(b, c) <= 0 {
      StringOrderTransitive(a, b, c);
    }
    if CompareTokens(a, c) > 0 {
      assert Numeric("") <==> false;
      if Numeric(a) && Numeric(b) && !Numeric(c) {
        assert Wedge(a, b, c);
      } else if Numeric(a) && Numeric(c) && !Numeric(b) {
        assert Wedge(c, a, b);
      } else if Numeric(b) && Numeric(c) && !Numeric(a) {
        assert Wedge(b, c, a);
      }
    }
  }

  lemma {:induction false} VersionsTransitive(a: seq<string>, b: seq<string>, c: seq<string>, i: nat,
                                              tokens: set<string>)
    requires WedgeFree(tokens) && Over(a, tokens) && Over(b, tokens) && Over(c, tokens)
    requires CompareFrom(a, b, i) <= 0 && CompareFrom(b, c, i) <= 0
    ensures CompareFrom(a, c, i) <= 0
    decreases |a| + |b| + |c| - i
  {
    if i >= |a| && i >= |b| && i >= |c| {
    } else {
      var x, y, z := Token(a, i), Token(b, i), Token(c, i);
      TokenOrder(x, y); TokenOrder(y, z); TokenOrder(x, z);
      TokensTransitive(x, y, z, tokens);
      if CompareTokens(x, z) == 0 {
        TokensTransitive(z, x, y, tokens);
        TokensTransitive(y, z, x, tokens);
        if i >= MaxLen(a, c) {
          EqualToEmpty(y);
        } else {
          if i >= MaxLen(a, b) || i >= MaxLen(b, c) {
            EqualToEmpty(x); EqualToEmpty(z);
          }
          VersionsTransitive(a, b, c, i + 1, tokens);
        }
      }
    }
  }

  lemma {:induction false} EqualToEmpty(t: string)
    ensures CompareTokens(t, "") == 0 || CompareTokens("", t) == 0 ==> t == ""
  {
    StringOrder(t, "");
    StringOrder("", t);
  }

  /** Comparison is transitive on the versions made of these tokens exactly when no word wedges two numbers. */
  lemma {:induction false} TransitiveIff(tokens: set<string>)
    ensures TransitiveOver(tokens) <==> WedgeFree(tokens)
  {
    if WedgeFree(tokens) {
      forall a, b, c | Over(a, tokens) && Over(b, tokens) && Over(c, tokens)
                       && CompareParts(a, b) <= 0 && CompareParts(b, c) <= 0
        ensures CompareParts(a, c) <= 0
      {
        VersionsTransitive(a, b, c, 0, tokens);
      }
    } else {
      var x, y, word :| x in tokens && y in tokens && word in tokens && Wedge(x, y, word);
      OneToken(x, y); OneToken(y, word); OneToken(x, word);
      TokenOrder(x, word);
      StringOrder(word, x);
      assert Over([x], tokens) && Over([y], tokens) && Over([word], tokens);
    }
  }

  lemma {:induction false} OneToken(x: string, y: string)
    ensures CompareParts([x], [y]) == CompareTokens(x, y)
  {
    assert CompareFrom([x], [y], 1) == 0;
  }

  /** None of the versions is later. */
  ghost predicate IsLast(last: seq<string>, versions: seq<seq<string>>) {
    last in versions && forall v :: v in versions ==> CompareParts(v, last) <= 0
  }

  ghost predicate HasLast(versions: seq<seq<string>>) { exists last :: IsLast(last, versions) }

  ghost predicate AllOver(versions: seq<seq<string>>, tokens: set<string>) {
    forall i :: 0 <= i < |versions| ==> Over(versions[i], tokens)
  }

  ghost predicate AlwaysLast(tokens: set<string>) {
    forall versions | versions != [] && AllOver(versions, tokens) :: HasLast(versions)
  }

  lemma {:induction false} SomeIsLast(versions: seq<seq<string>>, tokens: set<string>) returns (last: seq<string>)
    requires WedgeFree(tokens) && versions != [] && AllOver(versions, tokens)
    ensures IsLast(last, versions)
    decreases |versions|
  {
    var n := |versions| - 1;
    if n == 0 {
      last := versions[0];
      OnlyOneIsLast(last);
      assert versions == [last];
    } else {
      assert AllOver(versions[..n], tokens);
      var before := SomeIsLast(versions[..n], tokens);
      last := LastOfBoth(versions[..n], versions[n], before, tokens);
      assert versions == versions[..n] + [versions[n]];
    }
  }

  lemma {:induction false} OnlyOneIsLast(v: seq<string>)
    ensures IsLast(v, [v])
  {
    Antisymmetric(v, v, 0);
  }

  lemma {:induction false} LastOfBoth(init: seq<seq<string>>, v: seq<string>, before: seq<string>, tokens: set<string>)
    returns (last: seq<string>)
    requires WedgeFree(tokens) && Over(v, tokens) && AllOver(init, tokens) && IsLast(before, init)
    ensures IsLast(last, init + [v])
  {
    Antisymmetric(v, v, 0);
    Antisymmetric(v, before, 0);
    last := if CompareParts(v, before) <= 0 then before else v;
    forall w | w in init
      ensures CompareParts(w, last) <= 0
    {
      if last != before {
        VersionsTransitive(w, before, v, 0, tokens);
      }
    }
  }

  /** Three versions of wedging tokens run in a circle, also when the two numbers are equal. */
  lemma {:induction false} WedgeCircle(x: string, y: string, word: string)
    requires Wedge(x, y, word)
    ensures CompareParts([x], [y, word]) < 0 && CompareParts([y, word], [word]) < 0 && CompareParts([word], [x]) < 0
  {
    OneToken(word, x);
    assert Token([x], 0) == x && Token([y, word], 0) == y && Token([word], 0) == word;
    assert CompareTokens(x, y) <= 0 && CompareTokens(y, word) < 0;
    assert Token([x], 1) == "" && Token([y, word], 1) == word;
    assert !Numeric("");
    assert word != "";
    assert CompareTokens("", word) < 0;
    assert CompareFrom([x], [y, word], 1) < 0;
  }

  /**
   Every list of versions over a set of tokens has a latest one exactly when no word wedges two numbers. Outside that
   class no sort can get the choice right, since some list has nothing to choose.
   */
  lemma {:induction false} LatestExistsIff(tokens: set<string>)
    ensures AlwaysLast(tokens) <==> WedgeFree(tokens)
  {
    if WedgeFree(tokens) {
      forall versions | versions != [] && AllOver(versions, tokens)
        ensures HasLast(versions)
      {
        var last := SomeIsLast(versions, tokens);
      }
    } else {
      var x, y, word :| x in tokens && y in tokens && word in tokens && Wedge(x, y, word);
      WedgeHasNoLast(x, y, word, tokens);
    }
  }

  lemma {:induction false} WedgeHasNoLast(x: string, y: string, word: string, tokens: set<string>)
    requires {x, y, word} <= tokens && Wedge(x, y, word)
    ensures !AlwaysLast(tokens)
  {
    var versions := [[x], [y, word], [word]];
    WedgeCircle(x, y, word);
    NoneIsLast([x], [y, word], [word]);
    assert Over([x], tokens) && Over([y, word], tokens) && Over([word], tokens);
    assert AllOver(versions, tokens) && !HasLast(versions);
  }

  lemma {:induction false} NoneIsLast(a: seq<string>, b: seq<string>, c: seq<string>)
    requires CompareParts(a, b) < 0 && CompareParts(b, c) < 0 && CompareParts(c, a) < 0
    ensures !HasLast([a, b, c])
  {
    Antisymmetric(a, b, 0);
    Antisymmetric(b, c, 0);
    Antisymmetric(c, a, 0);
    forall last | last in [a, b, c]
      ensures !IsLast(last, [a, b, c])
    {
      assert a in [a, b, c] && b in [a, b, c] && c in [a, b, c];
    }
  }

  /** The versions distributions use: each token is a number in range or starts above the digits. */
  predicate WellFormedToken(t: string) {
    (AllDigits(t) && Atoi(t).Some?) || (t != "" && t[0] > '9')
  }

  lemma {:induction false} NumericStartsLow(t: string)
    requires Numeric(t)
    ensures t != "" && t[0] <= '9'
  {
    assert !AllDigits("");
    assert t[0] == '+' || t[0] == '-' || IsDigit(t[0]);
  }

  lemma {:induction false} WellFormedIsWedgeFree(tokens: set<string>)
    requires forall t :: t in tokens ==> WellFormedToken(t)
    ensures WedgeFree(tokens) && TransitiveOver(tokens)
  {
    forall x, y, word | x in tokens && y in tokens && word in tokens
      ensures !Wedge(x, y, word)
    {
      if Numeric(x) && !Numeric(word) {
        NumericStartsLow(x);
        assert CompareStrings(word, x) > 0;
      }
    }
    TransitiveIff(tokens);
  }

  lemma {:induction false} CycleTokens()
    ensures Atoi("9") == Some(9) && Atoi("10") == Some(10) && Atoi("1a") == None
    ensures CompareStrings("10", "1a") < 0 && CompareStrings("1a", "9") < 0
  {
    assert DigitsValue("9") == 9 && DigitsValue("10") == 10 by {
      assert "9"[..0] == "" && "10"[..1] == "1" && "1"[..0] == "";
    }
    assert Atoi("1a") == None by { assert !IsDigit("1a"[1]); }
    assert "10"[1..] == "0" && "1a"[1..] == "a";
  }

  lemma {:induction false} CycleOf(small: string, large: string, word: string)
    requires Atoi(small) == Some(9) && Atoi(large) == Some(10) && Atoi(word) == None
    requires CompareStrings(large, word) < 0 && CompareStrings(word, small) < 0
    requires ParseKernelVersion(small) == [small] && ParseKernelVersion(large) == [large]
    requires ParseKernelVersion(word) == [word]
    ensures CompareVersions(small, large) < 0 && CompareVersions(large, word) < 0 && CompareVersions(word, small) < 0
    ensures Wedge(small, large, word)
  {
    OneToken(small, large); OneToken(large, word); OneToken(word, small);
  }

  lemma {:induction false} OneCharacter(s: string)
    requires s == "9"
    ensures ParseKernelVersion(s) == [s]
  {
    PlainVersion(s);
  }

  lemma {:induction false} TwoCharacters(s: string)
    requires s == "10" || s == "1a"
    ensures ParseKernelVersion(s) == [s]
  {
    PlainVersion(s);
  }

  /** Outside that class the order can run in a circle. */
  lemma {:induction false} ComparisonCanCycle(small: string, large: string, word: string)
    requires small == "9" && large == "10" && word == "1a"
    ensures CompareVersions(small, large) < 0 && CompareVersions(large, word) < 0 && CompareVersions(word, small) < 0
    ensures Wedge(small, large, word)
  {
    OneCharacter(small);
    TwoCharacters(large);
    TwoCharacters(word);
    CycleTokens();
    CycleOf(small, large, word);
  }

  lemma {:induction false} ReplaceNothing(s: string, from: char, to: char)
    requires from !in s
    ensures ReplaceAll(s, from, to) == s
  {
    if s == [] {
    } else {
      assert s[0] in s && s == [s[0]] + s[1..];
      ReplaceNothing(s[1..], from, to);
    }
  }

  lemma {:induction false} PlainVersion(s: string)
    requires s != "" && NoSpace(s) && '.' !in s && '-' !in s
    ensures ParseKernelVersion(s) == [s]
  {
    ReplaceNothing(s, '.', ' ');
    ReplaceNothing(s, '-', ' ');
    FieldsOfWord(s, "");
    assert s + "" == s;
  }

  /** A version that starts with a word outranks every version that starts with a number. */
  lemma {:induction false} WordOutranksNumbers(word: string, number: string)
    requires ParseKernelVersion(word) != [] && ParseKernelVersion(word)[0][0] > '9'
    requires ParseKernelVersion(number) != [] && AllDigits(ParseKernelVersion(number)[0])
    ensures CompareVersions(number, word) < 0
  {
    var w, n := ParseKernelVersion(word)[0], ParseKernelVersion(number)[0];
    assert !IsDigit(w[0]) && n[0] < w[0];
  }

  // ---------------------------------------------------------------- choosing the latest

  ghost function TokensOf(versions: seq<string>): set<string> {
    set v, i | v in versions && 0 <= i < |ParseKernelVersion(v)| :: ParseKernelVersion(v)[i]
  }

  /** One of the versions and, if their tokens leave the order consistent, none is later. */
  ghost predicate IsLatest(latest: string, versions: seq<string>) {
    && latest in versions
    && (WedgeFree(TokensOf(versions)) ==> forall v :: v in versions ==> CompareVersions(v, latest) <= 0)
  }

  lemma {:induction false} WedgeFreeRanks(versions: seq<string>)
    requires WedgeFree(TokensOf(versions))
    ensures PreorderOn(CompareVersions, versions)
  {
    forall a, b | a in versions && b in versions
      ensures CompareVersions(a, b) > 0 <==> CompareVersions(b, a) < 0
    {
      Antisymmetric(ParseKernelVersion(a), ParseKernelVersion(b), 0);
    }
    forall v | v in versions
      ensures Over(ParseKernelVersion(v), TokensOf(versions))
    {}
    TransitiveIff(TokensOf(versions));
  }

  lemma {:induction false} LastIsLatest(kernels: seq<string>, sorted: seq<string>)
    requires |sorted| == |kernels| > 0 && multiset(sorted) == multiset(kernels)
    requires PreorderOn(CompareVersions, kernels) ==> Sorted(CompareVersions, sorted)
    ensures IsLatest(sorted[|sorted| - 1], kernels)
  {
    var latest := sorted[|sorted| - 1];
    SameElements(kernels, sorted);
    assert latest in sorted;
    if WedgeFree(TokensOf(kernels)) {
      WedgeFreeRanks(kernels);
      Antisymmetric(ParseKernelVersion(latest), ParseKernelVersion(latest), 0);
      forall v | v in kernels
        ensures CompareVersions(v, latest) <= 0
      {
        assert v in sorted;
        var i :| 0 <= i < |sorted| && sorted[i] == v;
      }
    }
  }

  method SortKernels(kernels: seq<string>) returns (sorted: seq<string>)
    ensures multiset(sorted) == multiset(kernels) && |sorted| == |kernels|
    ensures PreorderOn(CompareVersions, kernels) ==> Sorted(CompareVersions, sorted)
  {
    var a := new string[|kernels|](i requires 0 <= i < |kernels| => kernels[i]);
    assert a[..] == kernels;
    SortSlice(a, CompareVersions);
    sorted := a[..];
  }

  /** Sort ascending and take the last, as both selectors do. */
  method LatestOf(kernels: seq<string>) returns (latest: string)
    requires kernels != []
    ensures IsLatest(latest, kernels)
  {
    var sorted := SortKernels(kernels);
    LastIsLatest(kernels, sorted);
    latest := sorted[|sorted| - 1];
  }

  const BOOT_PREFIX := "vmlinuz-"
  const IMAGE_PREFIX := "linux-image-"

  predicate IsBootKernel(name: string) {
    HasPrefix(name, BOOT_PREFIX) && !Contains(TrimPrefix(name, BOOT_PREFIX), "recovery")
  }

  function BootKernels(names: seq<string>): seq<string> {
    if names == [] then []
    else
      var rest := BootKernels(names[..|names| - 1]);
      var name := names[|names| - 1];
      if IsBootKernel(name) then rest + [TrimPrefix(name, BOOT_PREFIX)] else rest
  }

  /** Exactly the versions of the vmlinuz files whose version does not have "recovery" in it. */
  lemma {:induction false} BootKernelsExact(names: seq<string>, version: string)
    ensures version in BootKernels(names) <==>
            "vmlinuz-" + version in names
            && !exists i: nat :: StandsAt(version, "recovery", i)
    decreases |names|
  {
    ContainsMeaning(version, "recovery");
    if names == [] {
    } else {
      var init, name := names[..|names| - 1], names[|names| - 1];
      BootKernelsExact(init, version);
      assert names == init + [name];
      NameOfVersion(name, BOOT_PREFIX, version);
      assert version in BootKernels(names) <==>
             version in BootKernels(init) || (IsBootKernel(name) && TrimPrefix(name, BOOT_PREFIX) == version);
    }
  }

  /** A name has the prefix and this rest exactly when it is the two together. */
  lemma {:induction false} NameOfVersion(name: string, prefix: string, version: string)
    ensures HasPrefix(name, prefix) && TrimPrefix(name, prefix) == version <==> name == prefix + version
  {
    if HasPrefix(name, prefix) {
      assert name == name[..|prefix|] + name[|prefix|..];
    }
  }

  method LatestKernelFromBoot(names: seq<string>) returns (latest: string)
    ensures BootKernels(names) == [] ==> latest == ""
    ensures BootKernels(names) != [] ==> IsLatest(latest, BootKernels(names))
  {
    var kernels := [];
    for i := 0 to |names|
      invariant kernels == BootKernels(names[..i])
    {
      assert names[..i + 1][..i] == names[..i];
      if HasPrefix(names[i], BOOT_PREFIX) {
        var version := TrimPrefix(names[i], BOOT_PREFIX);
        if !Contains(version, "recovery") {
          kernels := kernels + [version];
        }
      }
    }
    assert names[..|names|] == names;
    if |kernels| == 0 {
      return "";
    }
    latest := LatestOf(kernels);
  }

  predicate IsMetaVersion(version: string) {
    version in ["generic", "virtual", "lowlatency", "server", "cloud", "kvm", "generic-hwe"]
    || HasPrefix(version, "generic-")
  }

  /** The version an installed kernel image line of `dpkg -l` names, if the line is one. */
  function DpkgVersion(line: string): Option<string> {
    var fields := Fields(line);
    if |fields| >= 2 && fields[0] == "ii" && HasPrefix(fields[1], IMAGE_PREFIX)
    then Some(TrimPrefix(fields[1], IMAGE_PREFIX)) else None
  }

  function DpkgKernels(lines: seq<string>): seq<string> {
    if lines == [] then []
    else
      var rest := DpkgKernels(lines[..|lines| - 1]);
      var version := DpkgVersion(lines[|lines| - 1]);
      if version.Some? && !IsMetaVersion(version.value) then rest + [version.value] else rest
  }

  /** The line of an installed kernel image with this version that is no meta-package. */
  ghost predicate InstalledImage(line: string, version: string) {
    && |Fields(line)| >= 2 && Fields(line)[0] == "ii" && Fields(line)[1] == "linux-image-" + version
    && version !in {"generic", "virtual", "lowlatency", "server", "cloud", "kvm", "generic-hwe"}
    && !("generic-" <= version)
  }

  lemma {:induction false} InstalledImageIs(line: string, version: string)
    ensures InstalledImage(line, version) <==> DpkgVersion(line) == Some(version) && !IsMetaVersion(version)
  {
    if |Fields(line)| >= 2 {
      NameOfVersion(Fields(line)[1], IMAGE_PREFIX, version);
    }
  }

  /** Exactly the versions of the installed images that are no meta-packages. */
  lemma {:induction false} DpkgKernelsExact(lines: seq<string>, version: string)
    ensures version in DpkgKernels(lines) <==> exists i :: 0 <= i < |lines| && InstalledImage(lines[i], version)
    decreases |lines|
  {
    if lines == [] {
    } else {
      var init := lines[..|lines| - 1];
      DpkgKernelsExact(init, version);
      InstalledImageIs(lines[|lines| - 1], version);
      if i :| 0 <= i < |lines| && InstalledImage(lines[i], version) {
        assert i < |init| ==> init[i] == lines[i];
      }
      if i :| 0 <= i < |init| && InstalledImage(init[i], version) {
        assert lines[i] == init[i];
      }
    }
  }

  /** `resolved` is what asking dpkg about the meta-packages found, or the empty string. */
  method LatestKernelFromDpkg(lines: seq<string>, resolved: string) returns (latest: string)
    ensures DpkgKernels(lines) == [] ==> latest == resolved
    ensures DpkgKernels(lines) != [] ==> IsLatest(latest, DpkgKernels(lines))
  {
    var kernels := [];
    for i := 0 to |lines|
      invariant kernels == DpkgKernels(lines[..i])
    {
      assert lines[..i + 1][..i] == lines[..i];
      var version := DpkgVersion(lines[i]);
      if version.Some? && !IsMetaVersion(version.value) {
        kernels := kernels + [version.value];
      }
    }
    assert lines[..|lines|] == lines;
    if |kernels| > 0 {
      latest := LatestOf(kernels);
    } else {
      latest := resolved;
    }
  }
}
