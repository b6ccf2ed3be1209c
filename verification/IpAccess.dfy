/**
 Reading addresses and ranges, and the allow list of an API token.
 */
module IpAccess {
  import opened Options
  import opened Text
  import opened Decimal
  import opened Cidr

  // ---------------------------------------------------------------- parseInt and trim

  /** White space of ECMAScript: Unicode's, without U+0085 and with the byte order mark. */
  predicate IsJsSpace(c: char) {
    (IsSpace(c) && c != '\U{0085}') || c == '\U{FEFF}'
  }

  function JsTrimLeft(s: string): string {
    if s != [] && IsJsSpace(s[0]) then JsTrimLeft(s[1..]) else s
  }

  function JsTrimRight(s: string): string {
    if s != [] && IsJsSpace(s[|s| - 1]) then JsTrimRight(s[..|s| - 1]) else s
  }

  function LeadingDigits(s: string): (n: nat)
    ensures n <= |s| && forall i :: 0 <= i < n ==> IsDigit(s[i])
  {
    if s != [] && IsDigit(s[0]) then 1 + LeadingDigits(s[1..]) else 0
  }

  /** parseInt(s, 10), with None for NaN: leading blanks, a sign, the longest run of digits, the rest ignored. */
  function ParseInt(s: string): Option<int> {
    var t := JsTrimLeft(s);
    var signed := t != [] && (t[0] == '-' || t[0] == '+');
    var body := if signed then t[1..] else t;
    var n := LeadingDigits(body);
    if n == 0 then None
    else
      var value: int := DigitsValue(body[..n]);
      Some(if signed && t[0] == '-' then 0 - value else value)
  }

  // ---------------------------------------------------------------- addresses

  const MAPPED := "::ffff:"

  function ParseOctet(part: string): (n: Option<nat>)
    ensures n.Some? ==> n.value <= 255 && part == Print(n.value)
  {
    var num := ParseInt(part);
    if num.None? || num.value < 0 || num.value > 255 || Print(num.value) != part then None else Some(num.value)
  }

  function Quad(a: Option<nat>, b: Option<nat>, c: Option<nat>, d: Option<nat>): Option<Octets> {
    if a.None? || b.None? || c.None? || d.None? then None else Some([a.value, b.value, c.value, d.value])
  }

  /** Four octets, or None if there are not four parts or one of them is not canonical. */
  function ParseParts(parts: seq<string>): (o: Option<Octets>)
    ensures o.Some? ==> IsQuad(o.value)
  {
    if |parts| != 4 then None
    else Quad(ParseOctet(parts[0]), ParseOctet(parts[1]), ParseOctet(parts[2]), ParseOctet(parts[3]))
  }

  function ParseIPv4(ip: string): (o: Option<Octets>)
    ensures o.Some? ==> IsQuad(o.value)
  {
    ParseParts(Split(TrimPrefix(ip, MAPPED), '.'))
  }

  function Printed(o: Octets): seq<string>
    requires IsQuad(o)
  {
    [Print(o[0]), Print(o[1]), Print(o[2]), Print(o[3])]
  }

  function PrintIPv4(o: Octets): string
    requires IsQuad(o)
  {
    Join(Printed(o), ".")
  }

  lemma {:induction false} AllLeading(s: string)
    requires forall i :: 0 <= i < |s| ==> IsDigit(s[i])
    ensures LeadingDigits(s) == |s|
  {
    if s == [] {
    } else {
      AllLeading(s[1..]);
    }
  }

  lemma {:induction false} ParsePrinted(n: nat)
    ensures ParseInt(Print(n)) == Some(n)
  {
    PrintReads(n);
    var s := Print(n);
    assert IsDigit(s[0]) && !IsJsSpace(s[0]);
    AllLeading(s);
    assert s[..|s|] == s;
  }

  lemma {:induction false} PrintedHasNo(n: nat, c: char)
    requires !IsDigit(c)
    ensures c !in Print(n)
  {
    PrintReads(n);
  }

  lemma {:induction false} PrintedParts(o: Octets)
    requires IsQuad(o)
    ensures Split(PrintIPv4(o), '.') == Printed(o)
  {
    forall i | 0 <= i < 4
      ensures '.' !in Printed(o)[i]
    {
      PrintedHasNo(o[i], '.');
    }
    SplitOfJoin(Printed(o), '.');
  }

  lemma {:induction false} PartsFrom(parts: seq<string>, o: Octets)
    requires |parts| == 4 && IsQuad(o)
    requires ParseOctet(parts[0]) == Some(o[0]) && ParseOctet(parts[1]) == Some(o[1])
    requires ParseOctet(parts[2]) == Some(o[2]) && ParseOctet(parts[3]) == Some(o[3])
    ensures ParseParts(parts) == Some(o)
  {
    assert [o[0], o[1], o[2], o[3]] == o;
  }

  lemma {:induction false} PartsRead(o: Octets)
    requires IsQuad(o)
    ensures ParseParts(Printed(o)) == Some(o)
  {
    OctetReads(o[0]); OctetReads(o[1]); OctetReads(o[2]); OctetReads(o[3]);
    PartsFrom(Printed(o), o);
  }

  lemma {:induction false} PartsArePrinted(parts: seq<string>, o: Octets)
    requires ParseParts(parts) == Some(o)
    ensures IsQuad(o) && parts == Printed(o)
  {
    assert parts == [parts[0], parts[1], parts[2], parts[3]];
  }

  lemma {:induction false} PartsExactly(parts: seq<string>, o: Octets)
    ensures ParseParts(parts) == Some(o) <==> IsQuad(o) && parts == Printed(o)
  {
    if ParseParts(parts) == Some(o) {
      PartsArePrinted(parts, o);
    }
    if IsQuad(o) && parts == Printed(o) {
      PartsRead(o);
    }
  }

  lemma {:induction false} OctetReads(n: nat)
    requires n <= 255
    ensures ParseOctet(Print(n)) == Some(n)
  {
    ParsePrinted(n);
  }

  lemma {:induction false} PrintedStart(o: Octets)
    requires IsQuad(o)
    ensures PrintIPv4(o) != [] && IsDigit(PrintIPv4(o)[0])
  {
    PrintReads(o[0]);
  }

  lemma {:induction false} UnmappedAddress(o: Octets)
    requires IsQuad(o)
    ensures TrimPrefix(PrintIPv4(o), MAPPED) == PrintIPv4(o)
    ensures TrimPrefix(MAPPED + PrintIPv4(o), MAPPED) == PrintIPv4(o)
  {
    var s := PrintIPv4(o);
    PrintedStart(o);
    assert MAPPED[0] == ':';
    assert s[0] != MAPPED[0];
    assert (MAPPED + s)[..|MAPPED|] == MAPPED && (MAPPED + s)[|MAPPED|..] == s;
  }

  /** Parsing inverts printing, with or without the IPv4-mapped prefix. */
  lemma {:induction false} ParsePrintedAddress(o: Octets)
    requires IsQuad(o)
    ensures ParseIPv4(PrintIPv4(o)) == Some(o) && ParseIPv4(MAPPED + PrintIPv4(o)) == Some(o)
  {
    UnmappedAddress(o);
    PrintedParts(o);
    PartsExactly(Printed(o), o);
  }

  /** What is accepted is exactly the canonical dotted quad, optionally behind the prefix. */
  lemma {:induction false} ParseAcceptsExactly(ip: string, o: Octets)
    ensures ParseIPv4(ip) == Some(o) <==> IsQuad(o) && (ip == PrintIPv4(o) || ip == MAPPED + PrintIPv4(o))
  {
    if ParseIPv4(ip) == Some(o) {
      var bare := TrimPrefix(ip, MAPPED);
      PartsExactly(Split(bare, '.'), o);
      JoinOfSplit(bare, '.');
      assert HasPrefix(ip, MAPPED) ==> ip == ip[..|MAPPED|] + bare;
    }
    if IsQuad(o) {
      ParsePrintedAddress(o);
    }
  }

  // ---------------------------------------------------------------- ranges

  /** The test behind the two addresses: equality without a prefix, else a prefix in range and equal networks. */
  predicate InRange(client: Octets, range: Octets, cidr: seq<string>)
    requires IsQuad(client) && IsQuad(range)
  {
    if |cidr| <= 1 then client == range
    else
      var prefix := ParseInt(cidr[1]);
      prefix.Some? && 0 <= prefix.value <= 32 && SameMasked(client, range, prefix.value)
  }

  predicate IpMatchesCIDR(clientIp: string, allowedRange: string) {
    var client := ParseIPv4(clientIp);
    var cidr := Split(allowedRange, '/');
    var range := ParseIPv4(cidr[0]);
    client.Some? && range.Some? && InRange(client.value, range.value, cidr)
  }

  lemma {:induction false} PrefixMeaning(client: Octets, range: Octets, cidr: seq<string>, prefix: int)
    requires IsQuad(client) && IsQuad(range) && |cidr| > 1 && ParseInt(cidr[1]) == Some(prefix)
    ensures InRange(client, range, cidr) <==> 0 <= prefix <= 32 && Network(client, prefix) == Network(range, prefix)
  {
    if 0 <= prefix <= 32 {
      MatchMeaning(client, range, prefix);
    }
  }

  /** A printed client and a range text whose first part is a printed address. */
  lemma {:induction false} MatchOfPrinted(client: Octets, range: Octets, text: string, cidr: seq<string>)
    requires IsQuad(client) && IsQuad(range) && cidr == Split(text, '/') && cidr[0] == PrintIPv4(range)
    ensures IpMatchesCIDR(PrintIPv4(client), text) <==> InRange(client, range, cidr)
  {
    ParsePrintedAddress(client);
    ParsePrintedAddress(range);
  }

  /** A range with a prefix admits exactly the addresses of its network, and one without only itself. */
  lemma {:induction false} RangeMeaning(client: Octets, range: Octets, prefix: nat)
    requires IsQuad(client) && IsQuad(range)
    ensures IpMatchesCIDR(PrintIPv4(client), PrintIPv4(range)) <==> client == range
    ensures IpMatchesCIDR(PrintIPv4(client), PrintIPv4(range) + "/" + Print(prefix))
            <==> prefix <= 32 && Network(client, prefix) == Network(range, prefix)
  {
    RangeParts(range, prefix);
    MatchOfPrinted(client, range, PrintIPv4(range), [PrintIPv4(range)]);
    var cidr := [PrintIPv4(range), Print(prefix)];
    MatchOfPrinted(client, range, PrintIPv4(range) + "/" + Print(prefix), cidr);
    ParsePrinted(prefix);
    PrefixMeaning(client, range, cidr, prefix);
  }

  lemma {:induction false} RangeParts(range: Octets, prefix: nat)
    requires IsQuad(range)
    ensures Split(PrintIPv4(range), '/') == [PrintIPv4(range)]
    ensures Split(PrintIPv4(range) + "/" + Print(prefix), '/') == [PrintIPv4(range), Print(prefix)]
  {
    AddressHasNoSlash(range);
    PrintedHasNo(prefix, '/');
    SplitOfWord(PrintIPv4(range), '/');
    SplitOfWord(Print(prefix), '/');
    SplitAtFirst(PrintIPv4(range), '/', Print(prefix));
  }

  lemma {:induction false} AddressHasNoSlash(o: Octets)
    requires IsQuad(o)
    ensures '/' !in PrintIPv4(o)
  {
    forall i | 0 <= i < 4
      ensures '/' !in Printed(o)[i]
    {
      PrintedHasNo(o[i], '/');
    }
    JoinHasNo(Printed(o), '/');
  }

  lemma {:induction false} JoinHasNo(parts: seq<string>, c: char)
    requires c != '.' && forall i :: 0 <= i < |parts| ==> c !in parts[i]
    ensures c !in Join(parts, ".")
    decreases |parts|
  {
    if |parts| <= 1 {
    } else {
      JoinHasNo(parts[1..], c);
    }
  }

  /** A range text has a second part iff it has a slash. */
  lemma {:induction false} SecondPart(allowedRange: string)
    ensures |Split(allowedRange, '/')| > 1 <==> '/' in allowedRange
  {
    if '/' !in allowedRange {
      SplitOfWord(allowedRange, '/');
    } else {
      JoinOfSplit(allowedRange, '/');
    }
  }

  /** For arbitrary text: a match needs two addresses, and then a prefix in range or equality. */
  lemma {:induction false} MatchForAnyText(clientIp: string, allowedRange: string)
    ensures var client, cidr := ParseIPv4(clientIp), Split(allowedRange, '/');
            var range := ParseIPv4(cidr[0]);
            IpMatchesCIDR(clientIp, allowedRange) <==>
              && client.Some? && range.Some?
              && if '/' in allowedRange
                 then |cidr| > 1 && ParseInt(cidr[1]).Some? && 0 <= ParseInt(cidr[1]).value <= 32
                      && Network(client.value, ParseInt(cidr[1]).value) == Network(range.value, ParseInt(cidr[1]).value)
                 else client.value == range.value
  {
    var client, cidr := ParseIPv4(clientIp), Split(allowedRange, '/');
    var range := ParseIPv4(cidr[0]);
    SecondPart(allowedRange);
    if client.Some? && range.Some? && |cidr| > 1 && ParseInt(cidr[1]).Some? {
      PrefixMeaning(client.value, range.value, cidr, ParseInt(cidr[1]).value);
    }
  }

  lemma {:induction false} NetworkIsHalved(o: Octets, prefix: nat)
    requires IsQuad(o) && prefix <= 32
    ensures Network(o, prefix) == Halved(Address(o), 32 - prefix)
  {
    HalvedIs(Address(o), 32 - prefix);
  }

  lemma {:induction false} SameHalved(x: nat, y: nat, m: nat, n: nat)
    requires m <= n && Halved(x, m) == Halved(y, m)
    ensures Halved(x, n) == Halved(y, n)
  {
    HalvedFurther(x, m, n);
    HalvedFurther(y, m, n);
  }

  lemma {:induction false} ShorterNetwork(client: Octets, range: Octets, prefix: nat, shorter: nat)
    requires IsQuad(client) && IsQuad(range) && shorter <= prefix <= 32
    requires Network(client, prefix) == Network(range, prefix)
    ensures Network(client, shorter) == Network(range, shorter)
  {
    NetworkIsHalved(client, prefix);
    NetworkIsHalved(range, prefix);
    SameHalved(Address(client), Address(range), 32 - prefix, 32 - shorter);
    NetworkIsHalved(client, shorter);
    NetworkIsHalved(range, shorter);
  }

  /** A shorter prefix of the same range admits at least as much. */
  lemma {:induction false} ShorterPrefixAdmitsMore(client: Octets, range: Octets, prefix: nat, shorter: nat)
    requires IsQuad(client) && IsQuad(range) && shorter <= prefix <= 32
    requires SameMasked(client, range, prefix)
    ensures SameMasked(client, range, shorter)
  {
    MatchMeaning(client, range, prefix);
    ShorterNetwork(client, range, prefix, shorter);
    MatchMeaning(client, range, shorter);
  }

  lemma {:induction false} HalvedFurther(x: nat, m: nat, n: nat)
    requires m <= n
    ensures Halved(x, n) == Halved(Halved(x, m), n - m)
    decreases m
  {
    if m == 0 {
    } else {
      HalvedFurther(x / 2, m - 1, n - 1);
    }
  }

  /**
   For each prefix, matching is reflexive, symmetric and transitive; at 32 it is equality and at 0 it always
   holds.
   */
  lemma {:induction false} MatchIsEquivalence(a: Octets, b: Octets, c: Octets, prefix: nat)
    requires IsQuad(a) && IsQuad(b) && IsQuad(c) && prefix <= 32
    ensures SameMasked(a, a, prefix)
    ensures SameMasked(a, b, prefix) ==> SameMasked(b, a, prefix)
    ensures SameMasked(a, b, prefix) && SameMasked(b, c, prefix) ==> SameMasked(a, c, prefix)
    ensures SameMasked(a, b, 32) <==> a == b
    ensures SameMasked(a, b, 0)
  {
    MatchMeaning(a, b, 32);
    assert Pow2(0) == 1;
    SameAddressSameOctets(a, b);
    MatchMeaning(a, b, 0);
    Pow2At32();
    NetworkZero(a);
    NetworkZero(b);
  }

  lemma {:induction false} NetworkZero(a: Octets)
    requires IsQuad(a)
    ensures Network(a, 0) == 0
  {
    Pow2At32();
    QuotientIs(Address(a), 0, TWO32, Address(a));
  }

  lemma {:induction false} SameAddressSameOctets(a: Octets, b: Octets)
    requires IsQuad(a) && IsQuad(b)
    ensures Address(a) == Address(b) <==> a == b
  {
    if Address(a) == Address(b) {
      assert a[0] == b[0] && a[1] == b[1] && a[2] == b[2] && a[3] == b[3];
    }
  }

  predicate Any(xs: seq<string>, p: string -> bool) { exists i :: 0 <= i < |xs| && p(xs[i]) }

  /** One entry of an allow list; empty ones are skipped. */
  function AdmittedBy(clientIp: string): string -> bool {
    (entry: string) => entry != "" && IpMatchesCIDR(clientIp, JsTrimRight(JsTrimLeft(entry)))
  }

  /** An allow list admits a client iff one of its non-empty entries, trimmed, matches. */
  predicate IsIPAllowed(clientIp: string, allowedRanges: seq<string>) {
    clientIp != "" && Any(allowedRanges, AdmittedBy(clientIp))
  }

  lemma {:induction false} AnyOfSum(a: seq<string>, b: seq<string>, p: string -> bool)
    ensures Any(a + b, p) <==> Any(a, p) || Any(b, p)
  {
    if i :| 0 <= i < |a| && p(a[i]) {
      assert (a + b)[i] == a[i];
    }
    if i :| 0 <= i < |b| && p(b[i]) {
      assert (a + b)[|a| + i] == b[i];
    }
    if i :| 0 <= i < |a + b| && p((a + b)[i]) {
      assert (a + b)[i] == if i < |a| then a[i] else b[i - |a|];
    }
  }

  lemma {:induction false} AdmitsAddresses(clientIp: string, entry: string)
    requires AdmittedBy(clientIp)(entry)
    ensures ParseIPv4(clientIp).Some?
  {}

  /** Only addresses are admitted, none by an empty list, and a longer list admits what either part admits. */
  lemma {:induction false} AllowListMeaning(clientIp: string, a: seq<string>, b: seq<string>)
    ensures IsIPAllowed(clientIp, a) ==> ParseIPv4(clientIp).Some? && a != []
    ensures IsIPAllowed(clientIp, a + b) <==> IsIPAllowed(clientIp, a) || IsIPAllowed(clientIp, b)
  {
    AnyOfSum(a, b, AdmittedBy(clientIp));
    if IsIPAllowed(clientIp, a) {
      var i :| 0 <= i < |a| && AdmittedBy(clientIp)(a[i]);
      AdmitsAddresses(clientIp, a[i]);
    }
  }

  // ---------------------------------------------------------------- entries of an allow list

  predicate AllJsSpace(s: string) { forall i :: 0 <= i < |s| ==> IsJsSpace(s[i]) }

  lemma {:induction false} JsTrimLeftDrops(pad: string, s: string)
    requires AllJsSpace(pad) && (s == "" || !IsJsSpace(s[0]))
    ensures JsTrimLeft(pad + s) == s
    decreases |pad|
  {
    if pad == "" {
      assert pad + s == s;
    } else {
      assert (pad + s)[1..] == pad[1..] + s;
      JsTrimLeftDrops(pad[1..], s);
    }
  }

  lemma {:induction false} JsTrimRightDrops(s: string, pad: string)
    requires AllJsSpace(pad) && (s == "" || !IsJsSpace(s[|s| - 1]))
    ensures JsTrimRight(s + pad) == s
    decreases |pad|
  {
    if pad == "" {
      assert s + pad == s;
    } else {
      var all := s + pad;
      assert all[..|all| - 1] == s + pad[..|pad| - 1];
      JsTrimRightDrops(s, pad[..|pad| - 1]);
    }
  }

  lemma {:induction false} TrimmedEntry(lead: string, text: string, trail: string)
    requires AllJsSpace(lead) && AllJsSpace(trail)
    requires text != "" && !IsJsSpace(text[0]) && !IsJsSpace(text[|text| - 1])
    ensures JsTrimRight(JsTrimLeft(lead + text + trail)) == text
  {
    assert lead + text + trail == lead + (text + trail);
    JsTrimLeftDrops(lead, text + trail);
    JsTrimRightDrops(text, trail);
  }

  /** A list of one entry admits what the entry matches, blanks around it aside. */
  lemma {:induction false} EntryMeaning(clientIp: string, lead: string, text: string, trail: string)
    requires clientIp != "" && AllJsSpace(lead) && AllJsSpace(trail)
    requires text != "" && !IsJsSpace(text[0]) && !IsJsSpace(text[|text| - 1])
    ensures IsIPAllowed(clientIp, [lead + text + trail]) <==> IpMatchesCIDR(clientIp, text)
  {
    TrimmedEntry(lead, text, trail);
    var entry := lead + text + trail;
    assert entry != "";
    assert AdmittedBy(clientIp)(entry) <==> IpMatchesCIDR(clientIp, text);
    assert [entry][0] == entry;
  }

  // ---------------------------------------------------------------- numbers in texts

  lemma {:induction false} DigitsThenRest(digits: string, rest: string)
    requires (forall i :: 0 <= i < |digits| ==> IsDigit(digits[i])) && (rest == "" || !IsDigit(rest[0]))
    ensures LeadingDigits(digits + rest) == |digits|
    decreases |digits|
  {
    if digits == "" {
      assert digits + rest == rest;
    } else {
      assert (digits + rest)[1..] == digits[1..] + rest;
      DigitsThenRest(digits[1..], rest);
    }
  }

  /** Blanks, a sign, a numeral and whatever follows it are read as the number. */
  lemma {:induction false} ParseIntMeaning(pad: string, n: nat, rest: string)
    requires AllJsSpace(pad) && (rest == "" || !IsDigit(rest[0]))
    ensures ParseInt(pad + (Print(n) + rest)) == Some(n)
    ensures ParseInt(pad + (['+'] + (Print(n) + rest))) == Some(n)
    ensures var negative: int := 0 - n; ParseInt(pad + (['-'] + (Print(n) + rest))) == Some(negative)
  {
    PrintReads(n);
    ReadBody(pad, Print(n), rest);
    SignedBody(pad, '+', Print(n), rest);
    SignedBody(pad, '-', Print(n), rest);
  }

  /** Where no digit stands behind the blanks and a possible sign, there is no number. */
  lemma {:induction false} NoNumber(pad: string, rest: string)
    requires AllJsSpace(pad) && (rest == "" || !IsJsSpace(rest[0]))
    requires var body := if rest != "" && (rest[0] == '+' || rest[0] == '-') then rest[1..] else rest;
             body == "" || !IsDigit(body[0])
    ensures ParseInt(pad + rest) == None
  {
    JsTrimLeftDrops(pad, rest);
  }

  lemma {:induction false} ReadBody(pad: string, digits: string, rest: string)
    requires AllJsSpace(pad) && AllDigits(digits) && (rest == "" || !IsDigit(rest[0]))
    ensures ParseInt(pad + (digits + rest)) == Some(DigitsValue(digits))
  {
    var body := digits + rest;
    assert body[0] == digits[0] && IsDigit(digits[0]);
    JsTrimLeftDrops(pad, body);
    DigitsThenRest(digits, rest);
    assert body[..|digits|] == digits;
  }

  lemma {:induction false} SignedBody(pad: string, sign: char, digits: string, rest: string)
    requires AllJsSpace(pad) && AllDigits(digits) && (rest == "" || !IsDigit(rest[0])) && (sign == '+' || sign == '-')
    ensures var value: int := if sign == '-' then 0 - DigitsValue(digits) else DigitsValue(digits);
            ParseInt(pad + ([sign] + (digits + rest))) == Some(value)
  {
    var body := digits + rest;
    assert !IsJsSpace(sign);
    JsTrimLeftDrops(pad, [sign] + body);
    DigitsThenRest(digits, rest);
    assert body[..|digits|] == digits;
    SignedText(pad + ([sign] + body), sign, digits, body);
  }

  lemma {:induction false} SignedText(s: string, sign: char, digits: string, body: string)
    requires JsTrimLeft(s) == [sign] + body && (sign == '+' || sign == '-')
    requires AllDigits(digits) && LeadingDigits(body) == |digits| && body[..|digits|] == digits
    ensures var value: int := if sign == '-' then 0 - DigitsValue(digits) else DigitsValue(digits);
            ParseInt(s) == Some(value)
  {
    assert ([sign] + body)[1..] == body;
  }
}
