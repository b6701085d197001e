/**
 * The parts of Python 2's urlparse module the spider uses: urlsplit (and the
 * query part of urlparse, which is the same), urlunsplit and parse_qs.
 * A URL reference is split into scheme, authority (netloc), path, query and
 * fragment as in section 3 of RFC 3986.
 */
module UrlParse {

  /** The five components returned by urlsplit. An absent component is "". */
  datatype SplitResult = SplitResult(scheme: string, netloc: string, path: string, query: string, fragment: string)

  /** s contains none of the characters in cs. */
  predicate Avoids(s: string, cs: set<char>) {
    forall k :: 0 <= k < |s| ==> s[k] !in cs
  }

  /** The index of the first character of s that is in cs, or |s| if there is none. */
  function FindAny(s: string, cs: set<char>): (i: nat)
    ensures i <= |s|
    ensures forall j :: 0 <= j < i ==> s[j] !in cs
    ensures i < |s| ==> s[i] in cs
  {
    if s == [] then 0 else if s[0] in cs then 0 else 1 + FindAny(s[1..], cs)
  }

  /** The postconditions of FindAny determine its result. */
  lemma FindAnyIs(s: string, cs: set<char>, i: nat)
    requires i <= |s|
    requires forall j :: 0 <= j < i ==> s[j] !in cs
    requires i < |s| ==> s[i] in cs
    ensures FindAny(s, cs) == i
  {
  }

  /** The characters urlparse accepts in a scheme: letters, digits, "+", "-" and ".". */
  predicate SchemeChar(c: char) {
    ('a' <= c <= 'z') || ('A' <= c <= 'Z') || ('0' <= c <= '9') || c == '+' || c == '-' || c == '.'
  }

  predicate IsSchemeName(s: string) {
    forall k :: 0 <= k < |s| ==> SchemeChar(s[k])
  }

  /**
   * The scheme step of urlsplit: the text before the first ":" is the scheme
   * when it is non-empty and made of scheme characters.
   */
  function SplitScheme(url: string): (string, string) {
    var i := FindAny(url, {':'});
    if 0 < i < |url| && IsSchemeName(url[..i]) then (url[..i], url[i + 1..]) else ("", url)
  }

  /** The authority step of urlsplit: after a leading "//", up to the first "/", "?" or "#". */
  function SplitNetloc(rest: string): (string, string) {
    if |rest| >= 2 && rest[..2] == "//" then
      var j := 2 + FindAny(rest[2..], {'/', '?', '#'});
      (rest[2..j], rest[j..])
    else ("", rest)
  }

  /** s.split(c, 1) when c occurs in s, else (s, ""). */
  function Partition(s: string, c: char): (string, string) {
    var i := FindAny(s, {c});
    if i < |s| then (s[..i], s[i + 1..]) else (s, "")
  }

  /** urlsplit(url) */
  function UrlSplit(url: string): SplitResult {
    var (scheme, afterScheme) := SplitScheme(url);
    var (netloc, afterNetloc) := SplitNetloc(afterScheme);
    var (beforeFragment, fragment) := Partition(afterNetloc, '#');
    var (path, query) := Partition(beforeFragment, '?');
    SplitResult(scheme, netloc, path, query, fragment)
  }

  function SchemePrefix(p: SplitResult): string {
    if p.scheme != "" then p.scheme + ":" else ""
  }

  function AuthorityPrefix(p: SplitResult): string {
    if p.netloc != "" then "//" + p.netloc else ""
  }

  /** With an authority, a path that does not start with "/" gets one. */
  function PathPart(p: SplitResult): string {
    if p.netloc != "" && p.path != "" && p.path[0] != '/' then "/" + p.path else p.path
  }

  function QueryTail(query: string, fragment: string): string {
    (if query != "" then "?" + query else "") + (if fragment != "" then "#" + fragment else "")
  }

  /** urlunsplit(parts): empty components are left out, as Python does. */
  function UrlUnsplit(p: SplitResult): string {
    SchemePrefix(p) + AuthorityPrefix(p) + PathPart(p) + QueryTail(p.query, p.fragment)
  }

  /** The components that urlunsplit writes so that urlsplit reads them back. */
  predicate WellFormed(p: SplitResult) {
    && IsSchemeName(p.scheme)
    && Avoids(p.netloc, {'/', '?', '#'})
    && Avoids(p.path, {'?', '#'})
    && Avoids(p.query, {'#'})
    && (p.netloc != "" ==> p.path == "" || p.path[0] == '/')
    && (p.netloc == "" ==> !(|p.path| >= 2 && p.path[..2] == "//"))
    && (p.scheme == "" && p.netloc == "" ==> SplitScheme(p.path).0 == "")
  }

  lemma SchemeOf(s: string, r: string)
    requires |s| > 0 && IsSchemeName(s)
    ensures SplitScheme(s + ":" + r) == (s, r)
  {
    var url := s + ":" + r;
    FindAnyIs(url, {':'}, |s|);
    assert url[..|s|] == s;
    assert url[|s| + 1..] == r;
  }

  lemma NoScheme(url: string, k: nat)
    requires k < |url| && !SchemeChar(url[k]) && url[k] != ':'
    requires forall j :: 0 <= j < k ==> url[j] != ':'
    ensures SplitScheme(url).0 == ""
  {
    var i := FindAny(url, {':'});
    if 0 < i < |url| {
      assert i > k;
      assert url[..i][k] == url[k];
    }
  }

  /** A colon in a leads the scheme decision on a + b exactly as on a. */
  lemma SchemeOfPrefix(a: string, b: string)
    requires FindAny(a, {':'}) < |a|
    ensures SplitScheme(a + b).0 == SplitScheme(a).0
  {
    var i := FindAny(a, {':'});
    FindAnyIs(a + b, {':'}, i);
    assert (a + b)[..i] == a[..i];
  }

  lemma NetlocOf(n: string, r: string)
    requires Avoids(n, {'/', '?', '#'})
    requires r == "" || r[0] in {'/', '?', '#'}
    ensures SplitNetloc("//" + n + r) == (n, r)
  {
    var rest := "//" + n + r;
    assert rest[..2] == "//";
    assert rest[2..] == n + r;
    FindAnyIs(n + r, {'/', '?', '#'}, |n|);
    assert rest[2..2 + |n|] == n;
    assert rest[2 + |n|..] == r;
  }

  lemma PartitionAt(a: string, c: char, b: string)
    requires Avoids(a, {c})
    ensures Partition(a + [c] + b, c) == (a, b)
  {
    var s := a + [c] + b;
    FindAnyIs(s, {c}, |a|);
    assert s[..|a|] == a;
    assert s[|a| + 1..] == b;
  }

  lemma PartitionAbsent(a: string, c: char)
    requires Avoids(a, {c})
    ensures Partition(a, c) == (a, "")
  {
    FindAnyIs(a, {c}, |a|);
  }

  /** The path, query and fragment written by urlunsplit are read back by the last two steps of urlsplit. */
  lemma {:induction false} TailRoundTrip(path: string, query: string, fragment: string)
    requires Avoids(path, {'?', '#'}) && Avoids(query, {'#'})
    ensures var q := if query != "" then path + "?" + query else path;
            Partition(path + QueryTail(query, fragment), '#') == (q, fragment) &&
            Partition(q, '?') == (path, query)
  {
    var q := if query != "" then path + "?" + query else path;
    assert path + QueryTail(query, fragment) == if fragment != "" then q + "#" + fragment else q;
    assert Avoids(q, {'#'}) by {
      if query != "" {
        forall k | 0 <= k < |q| ensures q[k] != '#' {
          if k < |path| { assert q[k] == path[k]; }
          else if k > |path| { assert q[k] == query[k - |path| - 1]; }
        }
      }
    }
    if fragment != "" {
      PartitionAt(q, '#', fragment);
    } else {
      PartitionAbsent(q, '#');
    }
    if query != "" {
      PartitionAt(path, '?', query);
    } else {
      PartitionAbsent(path, '?');
    }
  }

  /** The authority written by urlunsplit is read back by the authority step of urlsplit. */
  lemma NetlocRoundTrip(p: SplitResult)
    requires WellFormed(p)
    ensures var t := p.path + QueryTail(p.query, p.fragment);
            SplitNetloc(AuthorityPrefix(p) + PathPart(p) + QueryTail(p.query, p.fragment)) == (p.netloc, t)
  {
    var tail := QueryTail(p.query, p.fragment);
    var t := p.path + tail;
    assert PathPart(p) == p.path;
    QueryTailStart(p.query, p.fragment);
    if p.netloc != "" {
      assert t == "" || t[0] in {'/', '?', '#'} by {
        if p.path != "" { assert t[0] == p.path[0]; }
      }
      assert AuthorityPrefix(p) + PathPart(p) + tail == "//" + p.netloc + t;
      NetlocOf(p.netloc, t);
    } else {
      assert AuthorityPrefix(p) + PathPart(p) + tail == t;
      NoAuthority(p.path, tail);
    }
  }

  /** A path that does not start with "//", followed by a query tail, does not start with "//" either. */
  lemma NoAuthority(path: string, tail: string)
    requires !(|path| >= 2 && path[..2] == "//")
    requires tail == "" || tail[0] in {'?', '#'}
    ensures SplitNetloc(path + tail) == ("", path + tail)
  {
    var t := path + tail;
    if |path| >= 2 {
      assert path[..2] == t[..2];
    } else if |path| == 1 && tail != "" {
      assert t[1] == tail[0];
    } else if tail != "" {
      assert t[0] == tail[0];
    }
  }

  lemma QueryTailStart(query: string, fragment: string)
    ensures var tail := QueryTail(query, fragment);
            tail == "" || tail[0] == '?' || tail[0] == '#'
  {
  }

  /** A relative reference written by urlunsplit is not read back with a scheme. */
  lemma NoSchemeRoundTrip(p: SplitResult)
    requires WellFormed(p) && p.scheme == ""
    ensures SplitScheme(UrlUnsplit(p)).0 == ""
  {
    var tail := QueryTail(p.query, p.fragment);
    QueryTailStart(p.query, p.fragment);
    if p.netloc != "" {
      NoSchemeWithAuthority(p);
    } else {
      assert UrlUnsplit(p) == p.path + tail;
      NoSchemePathFirst(p.path, tail);
    }
  }

  lemma NoSchemeWithAuthority(p: SplitResult)
    requires p.scheme == "" && p.netloc != ""
    ensures SplitScheme(UrlUnsplit(p)).0 == ""
  {
    var url := UrlUnsplit(p);
    assert url == "//" + p.netloc + PathPart(p) + QueryTail(p.query, p.fragment);
    assert url[0] == '/';
    NoScheme(url, 0);
  }

  lemma NoSchemePathFirst(path: string, tail: string)
    requires SplitScheme(path).0 == ""
    requires tail == "" || tail[0] == '?' || tail[0] == '#'
    ensures SplitScheme(path + tail).0 == ""
  {
    var url := path + tail;
    if FindAny(path, {':'}) < |path| {
      SchemeOfPrefix(path, tail);
    } else if tail != "" {
      assert url[|path|] == tail[0];
      NoScheme(url, |path|);
    } else {
      assert url == path;
    }
  }

  /** The scheme written by urlunsplit is read back by the scheme step of urlsplit. */
  lemma SchemeRoundTrip(p: SplitResult)
    requires WellFormed(p)
    ensures SplitScheme(UrlUnsplit(p)) == (p.scheme, AuthorityPrefix(p) + PathPart(p) + QueryTail(p.query, p.fragment))
  {
    var h := AuthorityPrefix(p) + PathPart(p) + QueryTail(p.query, p.fragment);
    if p.scheme != "" {
      assert UrlUnsplit(p) == p.scheme + ":" + h;
      SchemeOf(p.scheme, h);
    } else {
      assert UrlUnsplit(p) == h;
      NoSchemeRoundTrip(p);
    }
  }

  /**
   * urlsplit(urlunsplit(p)) == p for well-formed components: splitting a URL
   * rebuilt from a template gives back every component of the template.
   */
  lemma SplitOfUnsplit(p: SplitResult)
    requires WellFormed(p)
    ensures UrlSplit(UrlUnsplit(p)) == p
  {
    SchemeRoundTrip(p);
    NetlocRoundTrip(p);
    TailRoundTrip(p.path, p.query, p.fragment);
  }

  /** Partition keeps a prefix free of c and a suffix. */
  lemma PartitionParts(s: string, c: char)
    ensures var (before, after) := Partition(s, c);
            Avoids(before, {c}) && |before| <= |s| && before == s[..|before|] &&
            |after| <= |s| && after == s[|s| - |after|..]
  {
  }

  /** The authority step leaves an authority free of delimiters and a rest that starts a path, a query or a fragment. */
  lemma SplitNetlocParts(a: string)
    ensures Avoids(SplitNetloc(a).0, {'/', '?', '#'})
    ensures var b := SplitNetloc(a).1;
            if |a| >= 2 && a[..2] == "//" then b == "" || b[0] == '/' || b[0] == '?' || b[0] == '#'
            else b == a
  {
    if |a| >= 2 && a[..2] == "//" {
      var j := 2 + FindAny(a[2..], {'/', '?', '#'});
      assert SplitNetloc(a).1 == a[j..];
      assert j < |a| ==> a[j] == a[2..][j - 2];
      assert SplitNetloc(a).0 == a[2..][..j - 2];
    }
  }

  /** The path and query taken from what follows the authority. */
  lemma PathQueryParts(b: string)
    ensures var (c, fragment) := Partition(b, '#');
            var (path, query) := Partition(c, '?');
            Avoids(path, {'?', '#'}) && Avoids(query, {'#'}) && path == b[..|path|]
  {
    var (c, fragment) := Partition(b, '#');
    var (path, query) := Partition(c, '?');
    PartitionParts(b, '#');
    PartitionParts(c, '?');
    assert Avoids(path, {'?', '#'}) by {
      forall k | 0 <= k < |path| ensures path[k] != '?' && path[k] != '#' {
        assert path[k] == c[k];
      }
    }
    assert Avoids(query, {'#'}) by {
      forall k | 0 <= k < |query| ensures query[k] != '#' {
        assert query[k] == c[|c| - |query| + k];
      }
    }
  }

  /**
   * urlsplit produces well-formed components, except when the authority is
   * empty and the path itself starts with "//" (as in "////x").
   */
  lemma SplitIsWellFormed(url: string)
    requires var p := UrlSplit(url); !(p.netloc == "" && |p.path| >= 2 && p.path[..2] == "//")
    ensures WellFormed(UrlSplit(url))
  {
    SplitComponentsAvoid(url);
    SplitKeepsNoScheme(url);
  }

  /** The components urlsplit returns hold no delimiter of a later component. */
  lemma SplitComponentsAvoid(url: string)
    ensures var p := UrlSplit(url);
            IsSchemeName(p.scheme) && Avoids(p.netloc, {'/', '?', '#'}) && Avoids(p.path, {'?', '#'}) &&
            Avoids(p.query, {'#'}) && (p.netloc != "" ==> p.path == "" || p.path[0] == '/')
  {
    var p := UrlSplit(url);
    var (scheme, a) := SplitScheme(url);
    var (netloc, b) := SplitNetloc(a);
    SplitNetlocParts(a);
    PathQueryParts(b);
    assert p.path == b[..|p.path|];
    if p.netloc != "" && p.path != "" {
      assert p.path[0] == b[0];
    }
  }

  /** A relative reference without an authority splits into a path urlsplit would not read a scheme from. */
  lemma SplitKeepsNoScheme(url: string)
    ensures var p := UrlSplit(url);
            p.scheme == "" && p.netloc == "" ==> SplitScheme(p.path).0 == ""
  {
    var p := UrlSplit(url);
    var (scheme, a) := SplitScheme(url);
    var (netloc, b) := SplitNetloc(a);
    if scheme == "" && netloc == "" {
      SplitNetlocParts(a);
      PathQueryParts(b);
      assert p.path == b[..|p.path|];
      if |a| >= 2 && a[..2] == "//" {
        if p.path != "" {
          assert p.path[0] == b[0];
          NoScheme(p.path, 0);
        }
      } else {
        assert b == url;
        RelativePathNoScheme(url, p.path);
      }
    }
  }

  /** A path cut from the front of a URL that has no scheme has no scheme either. */
  lemma RelativePathNoScheme(url: string, path: string)
    requires SplitScheme(url).0 == ""
    requires |path| <= |url| && path == url[..|path|] && Avoids(path, {'?', '#'})
    requires |url| > |path| ==> url[|path|] == '?' || url[|path|] == '#'
    ensures SplitScheme(path).0 == ""
  {
    if FindAny(path, {':'}) < |path| {
      assert url == path + url[|path|..];
      SchemeOfPrefix(path, url[|path|..]);
    }
  }

  /** The pieces of s between the separators in seps, in order. */
  function SplitOnAny(s: string, seps: set<char>): (parts: seq<string>)
    ensures |parts| >= 1
    ensures forall k :: 0 <= k < |parts| ==> Avoids(parts[k], seps)
    decreases |s|
  {
    var i := FindAny(s, seps);
    if i == |s| then [s] else [s[..i]] + SplitOnAny(s[i + 1..], seps)
  }

  /** The separator characters of s, in order. */
  function SeparatorsOf(s: string, seps: set<char>): seq<char> {
    if s == [] then [] else (if s[0] in seps then [s[0]] else []) + SeparatorsOf(s[1..], seps)
  }

  /** The pieces written back with one separator between each two of them. */
  function Interleave(parts: seq<string>, cuts: seq<char>): string
    requires |parts| == |cuts| + 1
  {
    if cuts == [] then parts[0] else parts[0] + [cuts[0]] + Interleave(parts[1..], cuts[1..])
  }

  lemma {:induction false} SeparatorsOfAppend(a: string, b: string, seps: set<char>)
    ensures SeparatorsOf(a + b, seps) == SeparatorsOf(a, seps) + SeparatorsOf(b, seps)
  {
    if a != [] {
      assert (a + b)[1..] == a[1..] + b;
      SeparatorsOfAppend(a[1..], b, seps);
    } else {
      assert a + b == b;
    }
  }

  lemma {:induction false} NoSeparators(a: string, seps: set<char>)
    requires Avoids(a, seps)
    ensures SeparatorsOf(a, seps) == []
  {
    if a != [] {
      NoSeparators(a[1..], seps);
    }
  }

  /**
   * The pieces are the text between consecutive separators: written back
   * with the separators of s between them, in order, they give s again.
   */
  lemma {:induction false} SplitOnAnyJoins(s: string, seps: set<char>)
    ensures var parts := SplitOnAny(s, seps);
            var cuts := SeparatorsOf(s, seps);
            |parts| == |cuts| + 1 && Interleave(parts, cuts) == s
    decreases |s|
  {
    var i := FindAny(s, seps);
    if i == |s| {
      NoSeparators(s, seps);
    } else {
      var head := s[..i];
      var rest := s[i + 1..];
      SplitOnAnyJoins(rest, seps);
      FirstSeparator(s, seps, i);
      SeparatorsStep(head, s[i], rest, seps);
      var parts := SplitOnAny(s, seps);
      var tail := SplitOnAny(rest, seps);
      assert parts == [head] + tail;
      InterleaveStep(head, tail, s[i], SeparatorsOf(rest, seps));
    }
  }

  /** The first separator of s cuts it into a run without any, itself, and the rest. */
  lemma FirstSeparator(s: string, seps: set<char>, i: nat)
    requires i < |s| && FindAny(s, seps) == i
    ensures Avoids(s[..i], seps) && s[i] in seps && s == s[..i] + [s[i]] + s[i + 1..]
  {
  }

  /** The separators after a run without any are the one that ends the run, then those after it. */
  lemma SeparatorsStep(head: string, c: char, rest: string, seps: set<char>)
    requires Avoids(head, seps) && c in seps
    ensures SeparatorsOf(head + [c] + rest, seps) == [c] + SeparatorsOf(rest, seps)
  {
    NoSeparators(head, seps);
    assert head + [c] + rest == head + ([c] + rest);
    SeparatorsOfAppend(head, [c] + rest, seps);
    SeparatorsOfAppend([c], rest, seps);
    assert [c][1..] == [];
  }

  lemma InterleaveStep(head: string, tail: seq<string>, c: char, cuts: seq<char>)
    requires |tail| == |cuts| + 1
    ensures Interleave([head] + tail, [c] + cuts) == head + [c] + Interleave(tail, cuts)
  {
    assert ([head] + tail)[1..] == tail;
    assert ([c] + cuts)[1..] == cuts;
  }

  /** One name=value piece of a query string, as parse_qs keeps it. */
  function PairOf(piece: string): seq<(string, string)> {
    var i := FindAny(piece, {'='});
    // no "=" at all, or an empty value (keep_blank_values is off): dropped
    if i + 1 < |piece| then [(piece[..i], piece[i + 1..])] else []
  }

  function PairsOf(pieces: seq<string>): seq<(string, string)> {
    if pieces == [] then [] else PairOf(pieces[0]) + PairsOf(pieces[1..])
  }

  /** The (name, value) pairs of a query string, split on "&" and ";", in order. */
  function QueryPairs(query: string): seq<(string, string)> {
    PairsOf(SplitOnAny(query, {'&', ';'}))
  }

  /** Every pair parse_qs keeps has a non-empty value. */
  lemma {:induction false} PairsHaveValues(pieces: seq<string>)
    ensures forall k :: 0 <= k < |PairsOf(pieces)| ==> PairsOf(pieces)[k].1 != ""
  {
    if pieces != [] {
      PairsHaveValues(pieces[1..]);
      var ps := PairsOf(pieces);
      forall k | 0 <= k < |ps| ensures ps[k].1 != "" {
        if k >= |PairOf(pieces[0])| {
          assert ps[k] == PairsOf(pieces[1..])[k - |PairOf(pieces[0])|];
        }
      }
    }
  }

  /**
   * A piece is split at its first "=": the text before it is the name and
   * the rest, which may hold more "=", is the value. The pair is kept
   * exactly when that value is non-empty.
   */
  lemma PairOfSplitsAtFirstEquals(name: string, value: string)
    requires Avoids(name, {'='})
    ensures PairOf(name + "=" + value) == if value == "" then [] else [(name, value)]
  {
    var piece := name + "=" + value;
    assert piece[|name|] == '=';
    FindAnyIs(piece, {'='}, |name|);
    assert piece[..|name|] == name && piece[|name| + 1..] == value;
  }

  /** A piece without "=" gives no pair. */
  lemma PairOfWithoutEquals(piece: string)
    requires Avoids(piece, {'='})
    ensures PairOf(piece) == []
  {
    FindAnyIs(piece, {'='}, |piece|);
  }

  /** The pairs of consecutive runs of pieces follow each other in query order. */
  lemma {:induction false} PairsOfAppend(a: seq<string>, b: seq<string>)
    ensures PairsOf(a + b) == PairsOf(a) + PairsOf(b)
  {
    if a != [] {
      assert (a + b)[0] == a[0] && (a + b)[1..] == a[1..] + b;
      PairsOfAppend(a[1..], b);
    } else {
      assert a + b == b;
    }
  }

  /** The values given to name k, in order. */
  function ValuesOf(ps: seq<(string, string)>, k: string): seq<string> {
    if ps == [] then []
    else ValuesOf(ps[..|ps| - 1], k) + (if ps[|ps| - 1].0 == k then [ps[|ps| - 1].1] else [])
  }

  /** The dict parse_qs builds: each name appends its value to its own list. */
  function Collect(ps: seq<(string, string)>): (m: map<string, seq<string>>)
    ensures forall k :: k in m ==> |m[k]| > 0
  {
    if ps == [] then map[]
    else
      var m := Collect(ps[..|ps| - 1]);
      var (name, value) := ps[|ps| - 1];
      m[name := (if name in m then m[name] else []) + [value]]
  }

  /** parse_qs(query) */
  function ParseQs(query: string): map<string, seq<string>> {
    Collect(QueryPairs(query))
  }

  /** parse_qs maps a name to the list of every value given to it, in order, and holds no other name. */
  lemma {:induction false} CollectIsValuesOf(ps: seq<(string, string)>, k: string)
    ensures k in Collect(ps) <==> ValuesOf(ps, k) != []
    ensures k in Collect(ps) ==> Collect(ps)[k] == ValuesOf(ps, k)
  {
    if ps != [] {
      CollectIsValuesOf(ps[..|ps| - 1], k);
    }
  }

  /**
   * The values of a name start with the value of the first pair carrying
   * that name, and there are none exactly when no pair carries it.
   */
  lemma {:induction false} FirstValueOf(ps: seq<(string, string)>, k: string)
    ensures ValuesOf(ps, k) == [] <==> forall i :: 0 <= i < |ps| ==> ps[i].0 != k
    ensures ValuesOf(ps, k) != [] ==>
      exists i :: 0 <= i < |ps| && ps[i].0 == k && ValuesOf(ps, k)[0] == ps[i].1 &&
                  forall j :: 0 <= j < i ==> ps[j].0 != k
  {
    if ps != [] {
      var init, last := ps[..|ps| - 1], ps[|ps| - 1];
      FirstValueOf(init, k);
      assert forall i :: 0 <= i < |init| ==> ps[i] == init[i];
      if ValuesOf(init, k) != [] {
        var i :| 0 <= i < |init| && init[i].0 == k && ValuesOf(init, k)[0] == init[i].1 &&
                 forall j :: 0 <= j < i ==> init[j].0 != k;
        assert ValuesOf(ps, k)[0] == ValuesOf(init, k)[0];
      } else if last.0 == k {
        assert ValuesOf(ps, k) == [last.1];
      }
    }
  }

  /** A query parameter after the spider has set it: a list from parse_qs, or the page number. */
  datatype QueryValue = Values(values: seq<string>) | Number(n: int)

  /**
   * The library calls the model takes as given: urljoin (reference
   * resolution, section 5.2 of RFC 3986) and urlencode of a dict.
   */
  datatype UrlLib = UrlLib(urljoin: (string, string) -> string, urlencode: map<string, QueryValue> -> string)
}
