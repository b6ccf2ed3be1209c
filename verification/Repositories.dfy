/** What the APT and DNF readers share: the record they produce and the URL checks. */
module Repositories {
  import opened Text

  datatype Repository = Repository(
    name: string, url: string, distribution: string, components: string, repoType: string,
    enabled: bool, secure: bool)

  /** Remote schemes only; file, cdrom and copy are left out. */
  predicate IsValidRepoURL(url: string) {
    HasPrefix(url, "http://") || HasPrefix(url, "https://") || HasPrefix(url, "ftp://")
    || HasPrefix(url, "mirror://") || HasPrefix(url, "mirror+")
  }

  predicate IsSecureURL(url: string) { HasPrefix(url, "https://") }

  predicate IsComment(line: string) { HasPrefix(line, "#") }

  /** Position of the first `c`, or the length if there is none. */
  function Find(s: string, c: char): (n: nat)
    ensures n <= |s|
    ensures forall i :: 0 <= i < n ==> s[i] != c
    ensures n < |s| ==> s[n] == c
  {
    if s == [] || s[0] == c then 0 else 1 + Find(s[1..], c)
  }

  /** The two sides of the first `c`, trimmed. */
  function KeyValue(line: string, c: char): (string, string)
    requires c in line
  {
    var n := Find(line, c);
    (TrimSpace(line[..n]), TrimSpace(line[n + 1..]))
  }

  function Filter(xs: seq<string>, keep: string -> bool): seq<string> {
    if xs == [] then []
    else Filter(xs[..|xs| - 1], keep) + if keep(xs[|xs| - 1]) then [xs[|xs| - 1]] else []
  }

  lemma {:induction false} Associates(a: seq<Repository>, b: seq<Repository>, c: seq<Repository>)
    ensures (a + b) + c == a + (b + c)
  {}

  lemma {:induction false} CommentLines(line: string)
    ensures IsComment(line) <==> line != "" && line[0] == '#'
  {}

  const SCHEMES: seq<string> := ["http://", "https://", "ftp://", "mirror://", "mirror+"]

  /** Remote URLs start with one of five schemes; a file, a CD or a copy is none. */
  lemma {:induction false} RemoteSchemes(url: string)
    ensures IsValidRepoURL(url) <==> exists i :: 0 <= i < |SCHEMES| && SCHEMES[i] <= url
  {
    assert SCHEMES[0] == "http://" && SCHEMES[1] == "https://" && SCHEMES[2] == "ftp://";
    assert SCHEMES[3] == "mirror://" && SCHEMES[4] == "mirror+";
  }

  /** Filtering keeps exactly what it should, in order. */
  lemma {:induction false} FilterAppend(xs: seq<string>, ys: seq<string>, keep: string -> bool)
    ensures Filter(xs + ys, keep) == Filter(xs, keep) + Filter(ys, keep)
    decreases |ys|
  {
    if ys == [] {
      assert xs + ys == xs;
    } else {
      FilterAppend(xs, ys[..|ys| - 1], keep);
      assert (xs + ys)[..|xs + ys| - 1] == xs + ys[..|ys| - 1];
    }
  }

  lemma {:induction false} FilterOne(word: string, keep: string -> bool)
    ensures Filter([word], keep) == if keep(word) then [word] else []
  {
    assert [word][..0] == [] && Filter([], keep) == [];
  }
}
