/** One-line APT entries, and the round trip with their printed form. */
module AptLine {
  import opened Options
  import opened Text
  import opened Repositories
  import opened Deb822

  /** The first field from position `i` on that ends the options; position 1 if none does. */
  function OptionsEnd(fields: seq<string>, i: nat): nat
    requires 1 <= i <= |fields|
    decreases |fields| - i
  {
    if i == |fields| then 1 else if HasSuffix(fields[i], "]") then i else OptionsEnd(fields, i + 1)
  }

  /** Where the URL stands. */
  function UrlAt(fields: seq<string>): nat
    requires |fields| >= 4
  {
    if HasPrefix(fields[1], "[") then OptionsEnd(fields, 1) + 1 else 1
  }

  /** `nameOf` gets no given name here. */
  function Read(fields: seq<string>, nameOf: Naming): Option<Repository> {
    if |fields| < 4 || UrlAt(fields) + 2 >= |fields| then None
    else
      var at := UrlAt(fields);
      var url, suite, components := fields[at], fields[at + 1], Join(fields[at + 2..], " ");
      if !IsValidRepoURL(url) || suite == "" || Contains(suite, "[")
         || !IsValidSuiteComponents(suite, components) then None
      else
        var name := nameOf("", url, suite, components);
        Some(Repository(name, url, suite, components, fields[0], true, IsSecureURL(url)))
  }

  method ParseSourceLine(line: string, nameOf: Naming) returns (repo: Option<Repository>)
    ensures repo == Read(Fields(line), nameOf)
  {
    var fields := Fields(line);
    if |fields| < 4 {
      return None;
    }
    var at := 1;
    if HasPrefix(fields[1], "[") {
      var optionsEnd := 1;
      var i := 1;
      while i < |fields|
        invariant 1 <= i <= |fields|
        invariant optionsEnd == 1 && OptionsEnd(fields, 1) == OptionsEnd(fields, i)
      {
        if HasSuffix(fields[i], "]") {
          optionsEnd := i;
          break;
        }
        i := i + 1;
      }
      at := optionsEnd + 1;
    }
    if at + 2 >= |fields| {
      return None;
    }
    var url, suite, components := fields[at], fields[at + 1], Join(fields[at + 2..], " ");
    if !IsValidRepoURL(url) {
      return None;
    }
    if suite == "" || Contains(suite, "[") {
      return None;
    }
    if !IsValidSuiteComponents(suite, components) {
      return None;
    }
    var name := nameOf("", url, suite, components);
    repo := Some(Repository(name, url, suite, components, fields[0], true, IsSecureURL(url)));
  }

  // ---------------------------------------------------------------- the printed form

  /** type [options] url suite components... */
  datatype Line = Line(repoType: string, options: seq<string>, url: string, suite: string, components: seq<string>)

  function FieldsOfLine(l: Line): seq<string> {
    [l.repoType] + l.options + [l.url, l.suite] + l.components
  }

  predicate Word(s: string) { s != [] && NoSpace(s) }

  /** Only the first option opens the bracket and only the last closes it. */
  predicate Bracketed(options: seq<string>) {
    options == [] ||
    (&& HasPrefix(options[0], "[") && HasSuffix(options[|options| - 1], "]")
     && forall i :: 0 <= i < |options| - 1 ==> !HasSuffix(options[i], "]"))
  }

  predicate Printable(l: Line) {
    && (forall i :: 0 <= i < |FieldsOfLine(l)| ==> Word(FieldsOfLine(l)[i]))
    && Bracketed(l.options) && (l.options == [] ==> !HasPrefix(l.url, "["))
  }

  lemma {:induction false} OptionsEndFound(fields: seq<string>, i: nat, end: nat)
    requires 1 <= i <= end < |fields| && HasSuffix(fields[end], "]")
    requires forall k :: i <= k < end ==> !HasSuffix(fields[k], "]")
    ensures OptionsEnd(fields, i) == end
    decreases end - i
  {
    if i >= end {
    } else {
      OptionsEndFound(fields, i + 1, end);
    }
  }

  lemma {:induction false} UrlFound(l: Line)
    requires Printable(l) && |FieldsOfLine(l)| >= 4
    ensures UrlAt(FieldsOfLine(l)) == 1 + |l.options|
  {
    var fields := FieldsOfLine(l);
    if l.options == [] {
      assert fields[1] == l.url;
    } else {
      assert forall i :: 0 <= i < |l.options| ==> fields[i + 1] == l.options[i];
      forall k | 1 <= k < |l.options|
        ensures !HasSuffix(fields[k], "]")
      {
        assert fields[k] == l.options[k - 1];
      }
      OptionsEndFound(fields, 1, |l.options|);
    }
  }

  lemma {:induction false} JoinOfWords(words: seq<string>)
    requires forall i :: 0 <= i < |words| ==> Word(words[i])
    ensures Join(words, " ") == "" <==> words == []
  {}

  /**
   A printed line reads back as its parts exactly when the URL is remote, there is a component and the
   suite is no exact path and has no bracket; otherwise it is skipped.
   */
  lemma {:induction false} LineRoundTrip(l: Line, nameOf: Naming)
    requires Printable(l)
    ensures var components := Join(l.components, " ");
            Read(Fields(Join(FieldsOfLine(l), " ")), nameOf)
            == if IsValidRepoURL(l.url) && l.components != [] && !HasSuffix(l.suite, "/") && !Contains(l.suite, "[")
               then Some(Repository(nameOf("", l.url, l.suite, components), l.url, l.suite, components, l.repoType,
                                    true, IsSecureURL(l.url)))
               else None
  {
    var fields := FieldsOfLine(l);
    FieldsOfJoin(fields);
    if |fields| < 4 {
    } else {
      UrlFound(l);
      var at := 1 + |l.options|;
      assert fields[at] == l.url && fields[at + 1] == l.suite && fields[at + 2..] == l.components;
      assert fields[0] == l.repoType;
      forall i | 0 <= i < |l.components|
        ensures Word(l.components[i])
      {
        assert fields[at + 2 + i] == l.components[i];
      }
      JoinOfWords(l.components);
      assert Word(fields[at + 1]);
    }
  }

  /** sources.list(5) allows an exact path without components, but no such line is ever read. */
  lemma {:induction false} ExactPathNeverRead(fields: seq<string>, nameOf: Naming)
    requires forall i :: 0 <= i < |fields| ==> Word(fields[i])
    requires Read(fields, nameOf).Some?
    ensures Read(fields, nameOf).value.components != "" && !HasSuffix(Read(fields, nameOf).value.distribution, "/")
  {
    JoinOfWords(fields[UrlAt(fields) + 2..]);
  }

  lemma {:induction false} ExactPathLine(nameOf: Naming)
    ensures IsValidSuiteComponents("./", "")
    ensures Read(Fields("deb http://host/ ./"), nameOf) == None
  {
    var words := ["deb", "http://host/", "./"];
    assert Join(words[2..], " ") == "./";
    assert words[1..][1..] == words[2..];
    assert Join(words[1..], " ") == "http://host/" + " " + "./";
    assert Join(words, " ") == "deb http://host/ ./";
    FieldsOfJoin(words);
  }

  /** Options that are opened and never closed are taken to be one word. */
  lemma {:induction false} UnclosedOptions(fields: seq<string>)
    requires |fields| >= 4 && HasPrefix(fields[1], "[")
    requires forall i :: 1 <= i < |fields| ==> !HasSuffix(fields[i], "]")
    ensures UrlAt(fields) == 2
  {
    NoOptionsEnd(fields, 1);
  }

  lemma {:induction false} NoOptionsEnd(fields: seq<string>, i: nat)
    requires 1 <= i <= |fields| && forall k :: i <= k < |fields| ==> !HasSuffix(fields[k], "]")
    ensures OptionsEnd(fields, i) == 1
    decreases |fields| - i
  {
    if i == |fields| {
    } else {
      NoOptionsEnd(fields, i + 1);
    }
  }
}
