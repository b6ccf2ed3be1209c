/**
 Continuation lines of deb822(5): a line that starts with a blank goes on with the field before it. The scanner trims
 every line first and reads such a line as a field of its own or not at all. The theorems say for which paragraphs,
 and for which files, the repositories are those of the folded reading all the same.
 */
module Folding {
  import opened Options
  import opened Text
  import opened Repositories
  import opened Deb822
  import opened Expansion

  // ---------------------------------------------------------------- the folded reading

  predicate IsContinuation(raw: string) {
    raw != "" && (raw[0] == ' ' || raw[0] == '\t') && !IsBlank(raw)
  }

  /** The scanner reads the line as a field. */
  predicate NamesField(raw: string) { !IsComment(TrimSpace(raw)) && ':' in TrimSpace(raw) }

  function KeyOf(raw: string): string
    requires NamesField(raw)
  {
    KeyValue(TrimSpace(raw), ':').0
  }

  /** The field a continuation line behind this paragraph would go on with. */
  function LastField(paragraph: seq<string>): Option<string> {
    if paragraph == [] then None
    else
      var init, raw := paragraph[..|paragraph| - 1], paragraph[|paragraph| - 1];
      if NamesField(raw) && !(IsContinuation(raw) && LastField(init).Some?) then Some(KeyOf(raw)) else LastField(init)
  }

  predicate Continues(paragraph: seq<string>, raw: string) { IsContinuation(raw) && LastField(paragraph).Some? }

  /** A value with one more line. */
  function Extended(value: string, text: string): string {
    if value == "" then text else value + ("\n" + text)
  }

  function FoldedFields(paragraph: seq<string>): (fields: Option<Stanza>)
    ensures fields.Some? <==> LastField(paragraph).Some?
    ensures fields.Some? ==> LastField(paragraph).value in fields.value
  {
    if paragraph == [] then None
    else
      var init, raw := paragraph[..|paragraph| - 1], paragraph[|paragraph| - 1];
      if Continues(init, raw) then
        var fields, last := FoldedFields(init).value, LastField(init).value;
        Some(fields[last := Extended(fields[last], TrimSpace(raw))])
      else if NamesField(raw) then AddField(FoldedFields(init), TrimSpace(raw))
      else FoldedFields(init)
  }

  function FoldedAll(ps: seq<seq<string>>, nameOf: Naming): seq<Repository> {
    if ps == [] then []
    else FoldedAll(ps[..|ps| - 1], nameOf) + Emit(FoldedFields(ps[|ps| - 1]), nameOf)
  }

  /** The repositories of a file read as deb822(5) has it. */
  function FoldedParse(lines: seq<string>, nameOf: Naming): seq<Repository> {
    FoldedAll(Paragraphs(lines), nameOf)
  }

  // ---------------------------------------------------------------- what the lines add to a field

  /** The lines that continue field `k` where it was set last. */
  function More(paragraph: seq<string>, k: string): seq<string> {
    if paragraph == [] then []
    else
      var init, raw := paragraph[..|paragraph| - 1], paragraph[|paragraph| - 1];
      if Continues(init, raw) && LastField(init) == Some(k) then More(init, k) + [TrimSpace(raw)]
      else if !Continues(init, raw) && NamesField(raw) && KeyOf(raw) == k then []
      else More(init, k)
  }

  const READ: set<string> := {"Types", "URIs", "Suites", "Components", "Enabled", "X-Repolib-Name"}

  /** No continuation line has the form of a field that is read. */
  predicate Plain(paragraph: seq<string>) {
    forall j :: 0 <= j < |paragraph| && Continues(paragraph[..j], paragraph[j]) && NamesField(paragraph[j]) ==>
      KeyOf(paragraph[j]) !in READ
  }

  function ValueOf(fields: Option<Stanza>, k: string): Option<string> {
    if fields.Some? && k in fields.value then Some(fields.value[k]) else None
  }

  function ExtendedBy(value: string, texts: seq<string>): string {
    if texts == [] then value else Extended(ExtendedBy(value, texts[..|texts| - 1]), texts[|texts| - 1])
  }

  predicate Grown(scanned: Option<string>, folded: Option<string>, more: seq<string>) {
    if scanned.None? then folded.None? && more == []
    else folded == Some(ExtendedBy(scanned.value, more))
  }

  lemma {:induction false} PlainFront(paragraph: seq<string>)
    requires paragraph != [] && Plain(paragraph)
    ensures Plain(paragraph[..|paragraph| - 1])
  {
    var init := paragraph[..|paragraph| - 1];
    forall j | 0 <= j < |init| && Continues(init[..j], init[j]) && NamesField(init[j])
      ensures KeyOf(init[j]) !in READ
    {
      assert init[..j] == paragraph[..j];
    }
  }

  lemma {:induction false} PlainLast(paragraph: seq<string>)
    requires paragraph != [] && Plain(paragraph)
    ensures var init, raw := paragraph[..|paragraph| - 1], paragraph[|paragraph| - 1];
            Continues(init, raw) && NamesField(raw) ==> KeyOf(raw) !in READ
  {}

  lemma {:induction false} ExtendedByOneMore(value: string, texts: seq<string>, text: string)
    ensures ExtendedBy(value, texts + [text]) == Extended(ExtendedBy(value, texts), text)
  {
    assert (texts + [text])[..|texts|] == texts;
  }

  /** A line that is no field of those read leaves what the scanner has of them. */
  lemma {:induction false} ScannerKeeps(paragraph: seq<string>, k: string)
    requires paragraph != []
    requires var raw := paragraph[|paragraph| - 1]; NamesField(raw) ==> KeyOf(raw) != k
    ensures ValueOf(FieldsOf(paragraph), k) == ValueOf(FieldsOf(paragraph[..|paragraph| - 1]), k)
  {}

  lemma {:induction false} ContinuationGrows(paragraph: seq<string>, k: string)
    requires paragraph != []
    requires Continues(paragraph[..|paragraph| - 1], paragraph[|paragraph| - 1])
    ensures var init, text := paragraph[..|paragraph| - 1], TrimSpace(paragraph[|paragraph| - 1]);
            var before := ValueOf(FoldedFields(init), k);
            ValueOf(FoldedFields(paragraph), k)
            == if LastField(init) == Some(k) && before.Some? then Some(Extended(before.value, text)) else before
    ensures var init := paragraph[..|paragraph| - 1];
            LastField(init) == Some(k) ==> ValueOf(FoldedFields(init), k).Some?
  {}

  /** Of the fields that are read, the folded reading has the scanner's values with the lines that continue them. */
  lemma {:induction false} FieldGrown(paragraph: seq<string>, k: string)
    requires Plain(paragraph) && k in READ
    ensures Grown(ValueOf(FieldsOf(paragraph), k), ValueOf(FoldedFields(paragraph), k), More(paragraph, k))
    decreases |paragraph|
  {
    if paragraph == [] {
    } else {
      var init, raw := paragraph[..|paragraph| - 1], paragraph[|paragraph| - 1];
      PlainFront(paragraph);
      PlainLast(paragraph);
      FieldGrown(init, k);
      if Continues(init, raw) {
        ScannerKeeps(paragraph, k);
        ContinuationGrows(paragraph, k);
        if LastField(init) == Some(k) {
          ExtendedByOneMore(ValueOf(FieldsOf(init), k).value, More(init, k), TrimSpace(raw));
        }
      } else if NamesField(raw) {
        FieldSet(paragraph, k);
      }
    }
  }

  /** A line that both readings take for a field. */
  lemma {:induction false} FieldSet(paragraph: seq<string>, k: string)
    requires paragraph != [] && NamesField(paragraph[|paragraph| - 1])
    requires !Continues(paragraph[..|paragraph| - 1], paragraph[|paragraph| - 1])
    ensures var init, raw := paragraph[..|paragraph| - 1], paragraph[|paragraph| - 1];
            if KeyOf(raw) == k
            then ValueOf(FieldsOf(paragraph), k) == ValueOf(FoldedFields(paragraph), k) != None
                 && More(paragraph, k) == []
            else ValueOf(FieldsOf(paragraph), k) == ValueOf(FieldsOf(init), k)
                 && ValueOf(FoldedFields(paragraph), k) == ValueOf(FoldedFields(init), k)
                 && More(paragraph, k) == More(init, k)
  {}

  /** What the scanner reads of the paragraph, and what the folded reading does; nothing is read as no fields. */
  function Scanned(paragraph: seq<string>): Stanza {
    if FieldsOf(paragraph).Some? then FieldsOf(paragraph).value else map[]
  }

  function Folded(paragraph: seq<string>): Stanza {
    if FoldedFields(paragraph).Some? then FoldedFields(paragraph).value else map[]
  }

  lemma {:induction false} GetGrown(paragraph: seq<string>, k: string)
    requires Plain(paragraph) && k in READ
    ensures Get(Folded(paragraph), k) == ExtendedBy(Get(Scanned(paragraph), k), More(paragraph, k))
  {
    FieldGrown(paragraph, k);
  }

  lemma {:induction false} EmitIsExpand(paragraph: seq<string>, nameOf: Naming)
    ensures Emit(FieldsOf(paragraph), nameOf) == Expand(Scanned(paragraph), nameOf)
    ensures Emit(FoldedFields(paragraph), nameOf) == Expand(Folded(paragraph), nameOf)
  {
    ExpandNothing(map[], nameOf);
  }

  // ---------------------------------------------------------------- words of a field

  lemma {:induction false} FirstWord(a: string, b: string)
    requires a != "" && !IsSpace(a[0]) && (b == "" || IsSpace(b[0]))
    ensures var n := WordLen(a);
            0 < n <= |a| && WordLen(a + b) == n && (a + b)[..n] == a[..n] && (a + b)[n..] == a[n..] + b
  {
    var n := WordLen(a);
    Cut(a, b, n);
    WordLenOf(a[..n], a[n..] + b);
  }

  lemma {:induction false} Cut(a: string, b: string, n: nat)
    requires n <= |a|
    ensures a + b == a[..n] + (a[n..] + b) && (a + b)[..n] == a[..n] && (a + b)[n..] == a[n..] + b
  {}

  lemma {:induction false} FieldsAppend(a: string, b: string)
    requires b == "" || IsSpace(b[0])
    ensures Fields(a + b) == Fields(a) + Fields(b)
    decreases |a|
  {
    if a == "" {
      assert a + b == b;
    } else if IsSpace(a[0]) {
      assert (a + b)[1..] == a[1..] + b;
      FieldsAppend(a[1..], b);
    } else {
      var n := WordLen(a);
      FirstWord(a, b);
      FieldsAppend(a[n..], b);
      ThreeLists([a[..n]], Fields(a[n..]), Fields(b));
    }
  }

  lemma {:induction false} ThreeLists(a: seq<string>, b: seq<string>, c: seq<string>)
    ensures a + (b + c) == a + b + c
  {}

  lemma {:induction false} FieldsOfLine(text: string)
    ensures Fields("\n" + text) == Fields(text)
  {
    assert ("\n" + text)[1..] == text;
  }

  lemma {:induction false} FieldsOfExtended(value: string, text: string)
    ensures Fields(Extended(value, text)) == Fields(value) + Fields(text)
  {
    if value != "" {
      FieldsAppend(value, "\n" + text);
      FieldsOfLine(text);
    }
  }

  function WordsIn(texts: seq<string>): seq<string> {
    if texts == [] then [] else WordsIn(texts[..|texts| - 1]) + Fields(texts[|texts| - 1])
  }

  lemma {:induction false} FieldsGrown(value: string, texts: seq<string>)
    ensures Fields(ExtendedBy(value, texts)) == Fields(value) + WordsIn(texts)
    decreases |texts|
  {
    if texts == [] {
    } else {
      FieldsGrown(value, texts[..|texts| - 1]);
      FieldsOfExtended(ExtendedBy(value, texts[..|texts| - 1]), texts[|texts| - 1]);
    }
  }

  // ---------------------------------------------------------------- the condition on the lines

  /** No continuation adds a supported type; where no type is given, those added come to the default. */
  predicate TypesKept(paragraph: seq<string>) {
    var added := WordsIn(More(paragraph, "Types"));
    Filter(added, Supported) == if Fields(Get(Scanned(paragraph), "Types")) == [] && added != [] then [DEB] else []
  }

  predicate UrisKept(paragraph: seq<string>) { Filter(WordsIn(More(paragraph, "URIs")), IsValidRepoURL) == [] }

  predicate SuitesKept(paragraph: seq<string>) {
    Filter(WordsIn(More(paragraph, "Suites")), SuiteRule(Get(Scanned(paragraph), "Components"))) == []
  }

  /** A value of several lines disables nothing. */
  predicate EnabledKept(paragraph: seq<string>) {
    var value, more := Get(Scanned(paragraph), "Enabled"), More(paragraph, "Enabled");
    more == [] || (!Disables(value) && (value == "" && |more| == 1 ==> !Disables(more[0])))
  }

  predicate Harmless(paragraph: seq<string>, nameOf: Naming) {
    || (Idle(Scanned(paragraph)) && Idle(Folded(paragraph)))
    || (TypesKept(paragraph) && UrisKept(paragraph) && SuitesKept(paragraph) && More(paragraph, "Components") == []
        && EnabledKept(paragraph) && SameNames(Scanned(paragraph), Folded(paragraph), nameOf))
  }

  lemma {:induction false} MoreIsText(paragraph: seq<string>, k: string)
    ensures forall i :: 0 <= i < |More(paragraph, k)| ==> More(paragraph, k)[i] != ""
    decreases |paragraph|
  {
    if paragraph == [] {
    } else {
      MoreIsText(paragraph[..|paragraph| - 1], k);
    }
  }

  lemma {:induction false} ExtendedByGrows(value: string, texts: seq<string>)
    requires forall i :: 0 <= i < |texts| ==> texts[i] != ""
    ensures |ExtendedBy(value, texts)| >= |value| + |texts|
    ensures (value != "" && |texts| >= 1) || |texts| >= 2 ==> '\n' in ExtendedBy(value, texts)
    decreases |texts|
  {
    if texts == [] {
    } else {
      ExtendedByGrows(value, texts[..|texts| - 1]);
    }
  }

  lemma {:induction false} ComponentsGrown(paragraph: seq<string>)
    requires Plain(paragraph)
    ensures var s, f := Get(Scanned(paragraph), "Components"), Get(Folded(paragraph), "Components");
            (s == f <==> More(paragraph, "Components") == []) && (s != "" ==> f != "")
  {
    GetGrown(paragraph, "Components");
    MoreIsText(paragraph, "Components");
    ExtendedByGrows(Get(Scanned(paragraph), "Components"), More(paragraph, "Components"));
  }

  lemma {:induction false} EnabledGrown(paragraph: seq<string>)
    requires Plain(paragraph)
    ensures IsEnabled(Scanned(paragraph)) == IsEnabled(Folded(paragraph)) <==> EnabledKept(paragraph)
  {
    var value, more := Get(Scanned(paragraph), "Enabled"), More(paragraph, "Enabled");
    GetGrown(paragraph, "Enabled");
    MoreIsText(paragraph, "Enabled");
    LinesEnable(value, more);
  }

  lemma {:induction false} LinesEnable(value: string, more: seq<string>)
    requires forall i :: 0 <= i < |more| ==> more[i] != ""
    ensures more != [] ==>
              (Disables(ExtendedBy(value, more)) <==> value == "" && |more| == 1 && Disables(more[0]))
  {
    ExtendedByGrows(value, more);
    if |more| == 1 {
      assert more[..0] == [] && ExtendedBy(value, []) == value;
    }
  }

  lemma {:induction false} UrisGrown(paragraph: seq<string>)
    requires Plain(paragraph)
    ensures UsableUris(Folded(paragraph))
            == UsableUris(Scanned(paragraph)) + Filter(WordsIn(More(paragraph, "URIs")), IsValidRepoURL)
  {
    GetGrown(paragraph, "URIs");
    FieldsGrown(Get(Scanned(paragraph), "URIs"), More(paragraph, "URIs"));
    FilterAppend(Fields(Get(Scanned(paragraph), "URIs")), WordsIn(More(paragraph, "URIs")), IsValidRepoURL);
  }

  lemma {:induction false} FilterSame(xs: seq<string>, p: string -> bool, q: string -> bool)
    requires forall x :: x in xs ==> p(x) == q(x)
    ensures Filter(xs, p) == Filter(xs, q)
  {
    if xs == [] {
    } else {
      FilterSame(xs[..|xs| - 1], p, q);
    }
  }

  /** The rule for suites asks only whether there are components. */
  lemma {:induction false} SuitesGrown(paragraph: seq<string>)
    requires Plain(paragraph)
    requires Get(Scanned(paragraph), "Components") != "" || More(paragraph, "Components") == []
    ensures UsableSuites(Folded(paragraph))
            == UsableSuites(Scanned(paragraph))
               + Filter(WordsIn(More(paragraph, "Suites")), SuiteRule(Get(Scanned(paragraph), "Components")))
  {
    var before := SuiteRule(Get(Scanned(paragraph), "Components"));
    var after := SuiteRule(Get(Folded(paragraph), "Components"));
    ComponentsGrown(paragraph);
    GetGrown(paragraph, "Suites");
    FieldsGrown(Get(Scanned(paragraph), "Suites"), More(paragraph, "Suites"));
    FilterSame(Fields(Get(Folded(paragraph), "Suites")), before, after);
    FilterAppend(Fields(Get(Scanned(paragraph), "Suites")), WordsIn(More(paragraph, "Suites")), before);
  }

  lemma {:induction false} TypesGrown(paragraph: seq<string>)
    requires Plain(paragraph)
    ensures var s, added := Fields(Get(Scanned(paragraph), "Types")), WordsIn(More(paragraph, "Types"));
            UsableTypes(Folded(paragraph))
            == if s == [] && added != [] then Filter(added, Supported)
               else UsableTypes(Scanned(paragraph)) + Filter(added, Supported)
  {
    var s, added := Fields(Get(Scanned(paragraph), "Types")), WordsIn(More(paragraph, "Types"));
    GetGrown(paragraph, "Types");
    FieldsGrown(Get(Scanned(paragraph), "Types"), More(paragraph, "Types"));
    FilterAppend(s, added, Supported);
    if s == [] {
      assert s + added == added;
    }
  }

  /** On lines that continue fields only, the two readings agree in what counts exactly when each field is kept. */
  lemma {:induction false} AlikeIsKept(paragraph: seq<string>, nameOf: Naming)
    requires Plain(paragraph)
    requires !Idle(Scanned(paragraph)) && !Idle(Folded(paragraph))
    ensures Alike(Scanned(paragraph), Folded(paragraph), nameOf)
            <==> TypesKept(paragraph) && UrisKept(paragraph) && SuitesKept(paragraph)
                 && More(paragraph, "Components") == [] && EnabledKept(paragraph)
                 && SameNames(Scanned(paragraph), Folded(paragraph), nameOf)
  {
    ComponentsGrown(paragraph);
    EnabledGrown(paragraph);
    UrisGrown(paragraph);
    TypesKeptIff(paragraph);
    if More(paragraph, "Components") == [] {
      SuitesGrown(paragraph);
    }
  }

  lemma {:induction false} TypesKeptIff(paragraph: seq<string>)
    requires Plain(paragraph)
    ensures UsableTypes(Scanned(paragraph)) == UsableTypes(Folded(paragraph)) <==> TypesKept(paragraph)
  {
    TypesGrown(paragraph);
    if Fields(Get(Scanned(paragraph), "Types")) == [] {
      DefaultType(Scanned(paragraph));
    }
  }

  lemma {:induction false} DefaultType(entry: Stanza)
    requires Fields(Get(entry, "Types")) == []
    ensures UsableTypes(entry) == [DEB]
  {
    assert Types(entry) == [DEB];
    assert Filter([DEB][..0], Supported) == [];
    assert Supported([DEB][0]);
  }

  /** No empty field that counts when it is empty is continued: Types, for the default, and Components, for the rule. */
  predicate GrowsOnly(paragraph: seq<string>) {
    && (Fields(Get(Scanned(paragraph), "Types")) == [] ==> More(paragraph, "Types") == [])
    && (Get(Scanned(paragraph), "Components") == "" ==> More(paragraph, "Components") == [])
  }

  lemma {:induction false} FactorsAgree(a: nat, b: nat, c: nat, x: nat, y: nat, z: nat)
    requires 0 < a <= x && 0 < b <= y && 0 < c <= z && a * (b * c) == x * (y * z)
    ensures a == x && b == y && c == z
  {
    ProductGrows(b, c, y, z);
    ProductGrows(a, b * c, x, y * z);
  }

  lemma {:induction false} ProductGrows(a: nat, b: nat, x: nat, y: nat)
    requires 0 < a <= x && 0 < b <= y
    ensures 0 < a * b <= x * y && (a * b == x * y ==> a == x && b == y)
  {
    AtLeast(a, b, 0);
    AtLeast(a, y, b);
    AtLeast(y, x, a);
    assert a * y == y * a && x * y == y * x;
  }

  lemma {:induction false} AtLeast(n: nat, big: nat, small: nat)
    requires 0 < n && small <= big
    ensures n * big >= n * small + (big - small)
  {
    if n == 1 {
    } else {
      AtLeast(n - 1, big, small);
      assert n * big == (n - 1) * big + big && n * small == (n - 1) * small + small;
    }
  }

  lemma {:induction false} EqualCounts(paragraph: seq<string>, nameOf: Naming)
    requires Plain(paragraph) && !Idle(Scanned(paragraph)) && !Idle(Folded(paragraph))
    requires Expand(Scanned(paragraph), nameOf) == Expand(Folded(paragraph), nameOf)
    ensures SameSizes(Usable(Scanned(paragraph)), Usable(Folded(paragraph)))
  {
    var a, b := Usable(Scanned(paragraph)), Usable(Folded(paragraph));
    FirstComponents(Scanned(paragraph), Folded(paragraph), nameOf);
    ComponentsGrown(paragraph);
    UrisGrown(paragraph);
    SuitesGrown(paragraph);
    TypesGrown(paragraph);
    if Fields(Get(Scanned(paragraph), "Types")) == [] {
      DefaultType(Scanned(paragraph));
    }
    StanzaCount(Scanned(paragraph), nameOf);
    StanzaCount(Folded(paragraph), nameOf);
    FactorsAgree(|a.types|, |a.uris|, |a.suites|, |b.types|, |b.uris|, |b.suites|);
  }

  /**
   A paragraph none of whose continuation lines has the form of a field that is read gives the repositories of the
   folded reading exactly when its continuation lines are harmless.
   */
  lemma {:induction false} ParagraphUnchangedIff(paragraph: seq<string>, nameOf: Naming)
    requires Plain(paragraph)
    ensures Emit(FieldsOf(paragraph), nameOf) == Emit(FoldedFields(paragraph), nameOf) <==> Harmless(paragraph, nameOf)
  {
    var a, b := Scanned(paragraph), Folded(paragraph);
    EmitIsExpand(paragraph, nameOf);
    IdleIsEmpty(a, nameOf);
    IdleIsEmpty(b, nameOf);
    if !Idle(a) && !Idle(b) {
      AlikeIsKept(paragraph, nameOf);
      if Alike(a, b, nameOf) {
        AlikeExpandsAlike(a, b, nameOf);
      }
      if Expand(a, nameOf) == Expand(b, nameOf) {
        EqualCounts(paragraph, nameOf);
        SameSizesAreAlike(a, b, nameOf);
      }
    } else if TypesKept(paragraph) && UrisKept(paragraph) && SuitesKept(paragraph)
              && More(paragraph, "Components") == [] {
      KeptStaysIdle(paragraph);
    }
  }

  /** Where each field is kept, a paragraph that gives nothing in one reading gives nothing in the other. */
  lemma {:induction false} KeptStaysIdle(paragraph: seq<string>)
    requires Plain(paragraph) && TypesKept(paragraph) && UrisKept(paragraph) && SuitesKept(paragraph)
    requires More(paragraph, "Components") == []
    ensures Idle(Scanned(paragraph)) <==> Idle(Folded(paragraph))
  {
    UrisGrown(paragraph);
    SuitesGrown(paragraph);
    TypesKeptIff(paragraph);
  }

  /** Lines that continue fields nobody reads, such as a signing key, are harmless. */
  lemma {:induction false} UnreadFieldsHarmless(paragraph: seq<string>, nameOf: Naming)
    requires Plain(paragraph) && forall k :: k in READ ==> More(paragraph, k) == []
    ensures Harmless(paragraph, nameOf)
  {
    GetGrown(paragraph, "X-Repolib-Name");
    GetGrown(paragraph, "Components");
  }

  /** A remote URI on a continuation line of a stanza with types and suites to go with it is lost. */
  lemma {:induction false} ContinuedUriIsLost(paragraph: seq<string>, nameOf: Naming)
    requires Plain(paragraph) && !UrisKept(paragraph)
    requires UsableTypes(Folded(paragraph)) != [] && UsableSuites(Folded(paragraph)) != []
    ensures Emit(FieldsOf(paragraph), nameOf) != Emit(FoldedFields(paragraph), nameOf)
  {
    UrisGrown(paragraph);
    ParagraphUnchangedIff(paragraph, nameOf);
  }

  /** Continuation lines in the form of a field that is read: the iff on what the two readings make of them. */
  lemma {:induction false} DistinctParagraphUnchangedIff(paragraph: seq<string>, nameOf: Naming)
    requires DistinctLists(Usable(Scanned(paragraph))) && DistinctLists(Usable(Folded(paragraph)))
    ensures Emit(FieldsOf(paragraph), nameOf) == Emit(FoldedFields(paragraph), nameOf)
            <==> (Idle(Scanned(paragraph)) && Idle(Folded(paragraph)))
                 || Alike(Scanned(paragraph), Folded(paragraph), nameOf)
  {
    EmitIsExpand(paragraph, nameOf);
    SameRepositoriesIff(Scanned(paragraph), Folded(paragraph), nameOf);
  }

  // ---------------------------------------------------------------- whole files

  predicate All(ps: seq<seq<string>>, holds: seq<string> -> bool) { forall i :: 0 <= i < |ps| ==> holds(ps[i]) }

  predicate AllPlain(ps: seq<seq<string>>) { All(ps, Plain) }

  predicate AllGrowOnly(ps: seq<seq<string>>) { All(ps, GrowsOnly) }

  function HarmlessBy(nameOf: Naming): seq<string> -> bool { paragraph => Harmless(paragraph, nameOf) }

  predicate AllHarmless(ps: seq<seq<string>>, nameOf: Naming) { All(ps, HarmlessBy(nameOf)) }

  lemma {:induction false} AllSnoc(ps: seq<seq<string>>, holds: seq<string> -> bool)
    requires ps != []
    ensures All(ps, holds) <==> All(ps[..|ps| - 1], holds) && holds(ps[|ps| - 1])
  {
    var init := ps[..|ps| - 1];
    if All(init, holds) && holds(ps[|ps| - 1]) {
      forall i | 0 <= i < |ps|
        ensures holds(ps[i])
      {
        assert i < |init| ==> ps[i] == init[i];
      }
    }
  }

  lemma {:induction false} HarmlessParagraphs(ps: seq<seq<string>>, nameOf: Naming)
    requires AllPlain(ps) && AllHarmless(ps, nameOf)
    ensures ExpandAll(ps, nameOf) == FoldedAll(ps, nameOf)
    decreases |ps|
  {
    if ps == [] {
    } else {
      AllSnoc(ps, Plain);
      AllSnoc(ps, HarmlessBy(nameOf));
      HarmlessParagraphs(ps[..|ps| - 1], nameOf);
      ParagraphUnchangedIff(ps[|ps| - 1], nameOf);
    }
  }

  lemma {:induction false} FactorsGrow(a: nat, b: nat, c: nat, x: nat, y: nat, z: nat)
    requires a <= x && b <= y && c <= z
    ensures a * (b * c) <= x * (y * z)
  {
    if a > 0 && b > 0 && c > 0 {
      ProductGrows(b, c, y, z);
      ProductGrows(a, b * c, x, y * z);
    } else {
      ProductIsZero(a, b, c);
    }
  }

  /** Such a paragraph never gives more repositories than its folded reading. */
  lemma {:induction false} CountGrows(paragraph: seq<string>, nameOf: Naming)
    requires Plain(paragraph) && GrowsOnly(paragraph)
    ensures |Emit(FieldsOf(paragraph), nameOf)| <= |Emit(FoldedFields(paragraph), nameOf)|
  {
    var a, b := Usable(Scanned(paragraph)), Usable(Folded(paragraph));
    EmitIsExpand(paragraph, nameOf);
    UrisGrown(paragraph);
    SuitesGrown(paragraph);
    TypesGrown(paragraph);
    StanzaCount(Scanned(paragraph), nameOf);
    StanzaCount(Folded(paragraph), nameOf);
    FactorsGrow(|a.types|, |a.uris|, |a.suites|, |b.types|, |b.uris|, |b.suites|);
  }

  lemma {:induction false} SameTail(a: seq<Repository>, b: seq<Repository>, c: seq<Repository>, d: seq<Repository>)
    requires a + b == c + d && |a| <= |c| && |b| <= |d|
    ensures a == c && b == d
  {
    assert a == (a + b)[..|a|] && c == (c + d)[..|c|];
    assert b == (a + b)[|a|..] && d == (c + d)[|c|..];
  }

  lemma {:induction false} CountsGrow(ps: seq<seq<string>>, nameOf: Naming)
    requires AllPlain(ps) && AllGrowOnly(ps)
    ensures |ExpandAll(ps, nameOf)| <= |FoldedAll(ps, nameOf)|
    decreases |ps|
  {
    if ps == [] {
    } else {
      AllSnoc(ps, Plain);
      AllSnoc(ps, GrowsOnly);
      CountsGrow(ps[..|ps| - 1], nameOf);
      CountGrows(ps[|ps| - 1], nameOf);
    }
  }

  /** No paragraph can make up for another. */
  lemma {:induction false} UnchangedParagraphs(ps: seq<seq<string>>, nameOf: Naming)
    requires AllPlain(ps) && AllGrowOnly(ps) && ExpandAll(ps, nameOf) == FoldedAll(ps, nameOf)
    ensures AllHarmless(ps, nameOf)
    decreases |ps|
  {
    if ps == [] {
    } else {
      var init, last := ps[..|ps| - 1], ps[|ps| - 1];
      AllSnoc(ps, Plain);
      AllSnoc(ps, GrowsOnly);
      LastUnchanged(init, last, nameOf);
      UnchangedParagraphs(init, nameOf);
      AllSnoc(ps, HarmlessBy(nameOf));
    }
  }

  lemma {:induction false} LastUnchanged(init: seq<seq<string>>, last: seq<string>, nameOf: Naming)
    requires AllPlain(init) && AllGrowOnly(init) && Plain(last) && GrowsOnly(last)
    requires ExpandAll(init, nameOf) + Emit(FieldsOf(last), nameOf)
             == FoldedAll(init, nameOf) + Emit(FoldedFields(last), nameOf)
    ensures ExpandAll(init, nameOf) == FoldedAll(init, nameOf) && Harmless(last, nameOf)
  {
    CountsGrow(init, nameOf);
    CountGrows(last, nameOf);
    SameTail(ExpandAll(init, nameOf), Emit(FieldsOf(last), nameOf), FoldedAll(init, nameOf),
             Emit(FoldedFields(last), nameOf));
    ParagraphUnchangedIff(last, nameOf);
  }

  /** A file whose continuation lines are harmless in every paragraph gives the repositories of the folded reading. */
  lemma {:induction false} FileUnchanged(lines: seq<string>, nameOf: Naming)
    requires AllPlain(Paragraphs(lines)) && AllHarmless(Paragraphs(lines), nameOf)
    ensures Parse(lines, nameOf) == FoldedParse(lines, nameOf)
  {
    ParseIsByParagraph(lines, nameOf);
    HarmlessParagraphs(Paragraphs(lines), nameOf);
  }

  /** And only such a file, where no empty Types or Components field is continued. */
  lemma {:induction false} FileUnchangedIff(lines: seq<string>, nameOf: Naming)
    requires AllPlain(Paragraphs(lines)) && AllGrowOnly(Paragraphs(lines))
    ensures Parse(lines, nameOf) == FoldedParse(lines, nameOf) <==> AllHarmless(Paragraphs(lines), nameOf)
  {
    ParseIsByParagraph(lines, nameOf);
    if AllHarmless(Paragraphs(lines), nameOf) {
      HarmlessParagraphs(Paragraphs(lines), nameOf);
    }
    if Parse(lines, nameOf) == FoldedParse(lines, nameOf) {
      UnchangedParagraphs(Paragraphs(lines), nameOf);
    }
  }

  // ---------------------------------------------------------------- a file that loses a repository

  lemma {:induction false} BlankBefore(s: string)
    requires Trimmed(s)
    ensures TrimSpace(" " + s) == s
  {
    assert AllSpace(" ");
    TrimLeftDropsBlanks(" ", s);
    TrimmedStays(s);
  }

  function Line(key: string, value: string): string { key + ":" + " " + value }

  predicate IsKey(key: string) { key != "" && Trimmed(key) && ':' !in key && key[0] != '#' }

  predicate IsValue(value: string) { value != "" && Trimmed(value) }

  lemma {:induction false} LineIsField(key: string, value: string)
    requires IsKey(key) && IsValue(value)
    ensures var line := Line(key, value);
            && TrimSpace(line) == line && NamesField(line) && !IsContinuation(line)
            && KeyValue(line, ':') == (key, value)
  {
    var line := Line(key, value);
    assert line[0] == key[0] && line[|line| - 1] == value[|value| - 1];
    TrimmedStays(line);
    assert line[|key|] == ':' && forall i :: 0 <= i < |key| ==> line[i] == key[i];
    assert Find(line, ':') == |key|;
    assert line[..|key|] == key && line[|key| + 1..] == " " + value;
    TrimmedStays(key);
    BlankBefore(value);
  }

  lemma {:induction false} ReadField(paragraph: seq<string>, key: string, value: string)
    requires IsKey(key) && IsValue(value)
    ensures var next := paragraph + [Line(key, value)];
            && Scanned(next) == Scanned(paragraph)[key := value] && LastField(next) == Some(key)
            && (Plain(paragraph) ==> Plain(next))
            && forall k :: More(next, k) == if k == key then [] else More(paragraph, k)
  {
    var next := paragraph + [Line(key, value)];
    LineIsField(key, value);
    assert next[..|next| - 1] == paragraph;
    if Plain(paragraph) {
      PlainSnoc(paragraph, Line(key, value));
    }
  }

  lemma {:induction false} PlainSnoc(paragraph: seq<string>, raw: string)
    requires Plain(paragraph) && (Continues(paragraph, raw) && NamesField(raw) ==> KeyOf(raw) !in READ)
    ensures Plain(paragraph + [raw])
  {
    var next := paragraph + [raw];
    forall j | 0 <= j < |next| && Continues(next[..j], next[j]) && NamesField(next[j])
      ensures KeyOf(next[j]) !in READ
    {
      assert j < |paragraph| ==> next[..j] == paragraph[..j];
      assert j == |paragraph| ==> next[..j] == paragraph;
    }
  }

  /** A continuation line in the form of a field that is not read. */
  lemma {:induction false} ReadContinuation(paragraph: seq<string>, last: string, text: string)
    requires Plain(paragraph) && LastField(paragraph) == Some(last)
    requires IsValue(text) && text[0] != '#' && ':' in text && KeyValue(text, ':').0 !in READ
    ensures var next := paragraph + [" " + text];
            && Plain(next) && Scanned(next) == Scanned(paragraph)[KeyValue(text, ':').0 := KeyValue(text, ':').1]
            && forall k :: More(next, k) == if k == last then More(paragraph, k) + [text] else More(paragraph, k)
  {
    var raw := " " + text;
    var next := paragraph + [raw];
    BlankBefore(text);
    assert next[..|next| - 1] == paragraph && raw[0] == ' ';
    assert Continues(paragraph, raw) && NamesField(raw);
    PlainSnoc(paragraph, raw);
  }

  lemma {:induction false} OneParagraph(lines: seq<string>)
    requires forall i :: 0 <= i < |lines| ==> !IsBlank(lines[i])
    ensures Paragraphs(lines) == [lines]
    decreases |lines|
  {
    if lines == [] {
    } else {
      OneParagraph(lines[..|lines| - 1]);
      assert lines[..|lines| - 1] + [lines[|lines| - 1]] == lines;
    }
  }

  /** The four lines of a stanza whose second URI stands on a line of its own. */
  datatype Example = Example(suitesKey: string, suite: string, componentsKey: string, component: string,
                             urisKey: string, uri: string, second: string)
  {
    function First(): seq<string> { [] + [Line(suitesKey, suite)] + [Line(componentsKey, component)] }

    function Before(): seq<string> { First() + [Line(urisKey, uri)] }

    function Lines(): seq<string> { Before() + [" " + second] }

    predicate Keys() {
      && suitesKey == "Suites" && componentsKey == "Components" && urisKey == "URIs"
      && IsKey(suitesKey) && IsKey(componentsKey) && IsKey(urisKey)
    }

    predicate Values() {
      && IsValue(suite) && NoSpace(suite) && !HasSuffix(suite, "/") && IsValue(component)
      && IsValue(uri) && NoSpace(uri) && IsValidRepoURL(uri)
      && IsValue(second) && NoSpace(second) && IsValidRepoURL(second)
      && second[0] != '#' && ':' in second && KeyValue(second, ':').0 !in READ
    }
  }

  lemma {:induction false} StartRead(e: Example)
    requires e.Keys() && e.Values()
    ensures Plain(e.First()) && LastField(e.First()) == Some(e.componentsKey)
    ensures (forall k :: More(e.First(), k) == [])
    ensures Scanned(e.First()) == map[][e.suitesKey := e.suite][e.componentsKey := e.component]
  {
    assert Scanned([]) == map[] && Plain([]);
    ReadField([], e.suitesKey, e.suite);
    ReadField([] + [Line(e.suitesKey, e.suite)], e.componentsKey, e.component);
  }

  lemma {:induction false} LinesRead(e: Example)
    requires e.Keys() && e.Values()
    ensures Plain(e.Lines())
    ensures forall k :: More(e.Lines(), k) == if k == e.urisKey then [] + [e.second] else []
    ensures var s, key := Scanned(e.Lines()), KeyValue(e.second, ':');
            s == map[][e.suitesKey := e.suite][e.componentsKey := e.component][e.urisKey := e.uri][key.0 := key.1]
  {
    StartRead(e);
    ReadField(e.First(), e.urisKey, e.uri);
    ReadContinuation(e.Before(), e.urisKey, e.second);
  }

  lemma {:induction false} OneWord(word: string)
    requires word != "" && NoSpace(word)
    ensures Fields(word) == [word]
  {
    FieldsOfWord(word, "");
    assert word + "" == word;
  }

  lemma {:induction false} OneOfEach(entry: Stanza, uri: string, suite: string)
    requires Fields(Get(entry, "Types")) == [] && Get(entry, "URIs") == uri && Get(entry, "Suites") == suite
    requires uri != "" && NoSpace(uri) && IsValidRepoURL(uri) && suite != "" && NoSpace(suite)
    requires IsValidSuiteComponents(suite, Get(entry, "Components"))
    ensures Usable(entry) == Lists([DEB], [uri], [suite])
  {
    DefaultType(entry);
    OneWord(uri);
    OneWord(suite);
    FilterOne(uri, IsValidRepoURL);
    FilterOne(suite, SuiteRule(Get(entry, "Components")));
  }

  lemma {:induction false} OneText(text: string)
    requires text != "" && NoSpace(text)
    ensures WordsIn([] + [text]) == [text]
  {
    OneWord(text);
    assert ([] + [text])[..0] == [];
  }

  lemma {:induction false} NothingAdded(more: seq<string>, keep: string -> bool)
    requires more == []
    ensures WordsIn(more) == [] && Filter(WordsIn(more), keep) == []
  {}

  lemma {:induction false} OneMoreUri(paragraph: seq<string>, uri: string, suite: string, second: string)
    requires Plain(paragraph) && Usable(Scanned(paragraph)) == Lists([DEB], [uri], [suite])
    requires second != "" && NoSpace(second) && IsValidRepoURL(second) && More(paragraph, "URIs") == [] + [second]
    requires More(paragraph, "Types") == More(paragraph, "Suites") == More(paragraph, "Components") == []
    ensures Usable(Folded(paragraph)) == Lists([DEB], [uri] + [second], [suite])
  {
    UrisGrown(paragraph);
    OneText(second);
    FilterOne(second, IsValidRepoURL);
    SuitesGrown(paragraph);
    NothingAdded(More(paragraph, "Suites"), SuiteRule(Get(Scanned(paragraph), "Components")));
    TypesGrown(paragraph);
    NothingAdded(More(paragraph, "Types"), Supported);
  }

  lemma {:induction false} CountIs(entry: Stanza, nameOf: Naming, types: nat, uris: nat, suites: nat)
    requires |UsableTypes(entry)| == types == 1 && |UsableUris(entry)| == uris && |UsableSuites(entry)| == suites == 1
    ensures |Expand(entry, nameOf)| == uris
  {
    StanzaCount(entry, nameOf);
  }

  lemma {:induction false} ExampleCounts(e: Example, nameOf: Naming)
    requires e.Keys() && e.Values()
    ensures |Emit(FieldsOf(e.Lines()), nameOf)| == 1 && |Emit(FoldedFields(e.Lines()), nameOf)| == 2
  {
    LinesRead(e);
    OneOfEach(Scanned(e.Lines()), e.uri, e.suite);
    OneMoreUri(e.Lines(), e.uri, e.suite, e.second);
    EmitIsExpand(e.Lines(), nameOf);
    CountIs(Scanned(e.Lines()), nameOf, 1, 1, 1);
    CountIs(Folded(e.Lines()), nameOf, 1, 2, 1);
  }

  lemma {:induction false} FourLines(a: string, b: string, c: string, d: string)
    requires !IsBlank(a) && !IsBlank(b) && !IsBlank(c) && !IsBlank(d)
    ensures var lines := [] + [a] + [b] + [c] + [d]; Paragraphs(lines) == [lines]
  {
    OneParagraph([] + [a] + [b] + [c] + [d]);
  }

  lemma {:induction false} ExampleParagraph(e: Example)
    requires e.Keys() && e.Values()
    ensures Paragraphs(e.Lines()) == [e.Lines()]
  {
    LineIsField(e.suitesKey, e.suite);
    LineIsField(e.componentsKey, e.component);
    LineIsField(e.urisKey, e.uri);
    BlankBefore(e.second);
    FourLines(Line(e.suitesKey, e.suite), Line(e.componentsKey, e.component), Line(e.urisKey, e.uri), " " + e.second);
  }

  lemma {:induction false} OneParagraphFile(lines: seq<string>, nameOf: Naming)
    requires Paragraphs(lines) == [lines]
    ensures Parse(lines, nameOf) == Emit(FieldsOf(lines), nameOf)
    ensures FoldedParse(lines, nameOf) == Emit(FoldedFields(lines), nameOf)
  {
    ParseIsByParagraph(lines, nameOf);
    OnlyParagraph(lines, nameOf);
  }

  lemma {:induction false} OnlyParagraph(paragraph: seq<string>, nameOf: Naming)
    ensures ExpandAll([paragraph], nameOf) == Emit(FieldsOf(paragraph), nameOf)
    ensures FoldedAll([paragraph], nameOf) == Emit(FoldedFields(paragraph), nameOf)
  {
    var ps := [paragraph];
    assert ps[..0] == [] && ExpandAll(ps[..0], nameOf) == [] && FoldedAll(ps[..0], nameOf) == [];
    assert ExpandAll(ps, nameOf) == ExpandAll(ps[..0], nameOf) + Emit(FieldsOf(ps[0]), nameOf);
    assert FoldedAll(ps, nameOf) == FoldedAll(ps[..0], nameOf) + Emit(FoldedFields(ps[0]), nameOf);
  }

  lemma {:induction false} ExampleFile(e: Example, nameOf: Naming)
    requires e.Keys() && e.Values()
    ensures |Parse(e.Lines(), nameOf)| == 1 && |FoldedParse(e.Lines(), nameOf)| == 2
  {
    ExampleCounts(e, nameOf);
    ExampleParagraph(e);
    OneParagraphFile(e.Lines(), nameOf);
  }

  lemma {:induction false} RemoteUri(text: string)
    requires text == "http://a" || text == "http://b"
    ensures IsValue(text) && NoSpace(text) && IsValidRepoURL(text) && text[0] != '#'
  {}

  lemma {:induction false} UriAsField(text: string)
    requires text == "http://b"
    ensures ':' in text && KeyValue(text, ':').0 !in READ
  {
    assert text[4] == ':' && forall i :: 0 <= i < 4 ==> text[i] != ':';
    assert text[..4] == "http";
    TrimmedStays(text[..4]);
  }

  lemma {:induction false} ExampleKeys(e: Example)
    requires e.suitesKey == "Suites" && e.componentsKey == "Components" && e.urisKey == "URIs"
    ensures e.Keys()
  {}

  lemma {:induction false} ExampleValues(e: Example)
    requires e.suite == "s" && e.component == "c" && e.uri == "http://a" && e.second == "http://b"
    ensures e.Values()
  {
    UriAsField(e.second);
    RemoteUri(e.uri);
    RemoteUri(e.second);
    OneLetter(e.suite);
    OneLetter(e.component);
  }

  lemma {:induction false} OneLetter(word: string)
    requires word == "s" || word == "c"
    ensures IsValue(word) && NoSpace(word) && !HasSuffix(word, "/")
  {}

  lemma {:induction false} ExampleLines(e: Example)
    requires e.suitesKey == "Suites" && e.componentsKey == "Components" && e.urisKey == "URIs"
    requires e.suite == "s" && e.component == "c" && e.uri == "http://a" && e.second == "http://b"
    ensures e.Lines() == ["Suites: s", "Components: c", "URIs: http://a", " http://b"]
  {
    assert Line(e.suitesKey, e.suite) == "Suites: s" && Line(e.componentsKey, e.component) == "Components: c";
    assert Line(e.urisKey, e.uri) == "URIs: http://a" && " " + e.second == " http://b";
  }

  /** "URIs: http://a" with " http://b" below: the scanner reads a field "http" and gives one repository of the two. */
  lemma {:induction false} SecondUriIsLost(e: Example, nameOf: Naming)
    requires e.suitesKey == "Suites" && e.componentsKey == "Components" && e.urisKey == "URIs"
    requires e.suite == "s" && e.component == "c" && e.uri == "http://a" && e.second == "http://b"
    ensures e.Lines() == ["Suites: s", "Components: c", "URIs: http://a", " http://b"]
    ensures |Parse(e.Lines(), nameOf)| == 1 && |FoldedParse(e.Lines(), nameOf)| == 2
  {
    ExampleLines(e);
    ExampleKeys(e);
    ExampleValues(e);
    ExampleFile(e, nameOf);
  }
}
