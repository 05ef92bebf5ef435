/** How tmpfs takes a path apart: the names in it, whatever the slashes around them. */
module TmpfsPaths {
  import opened Wrappers

  predicate Name(c: string) {
    c != "" && '/' !in c
  }

  /** The length of the part before the first slash. */
  function Span(s: string): (n: nat)
    ensures n <= |s| && '/' !in s[..n]
    ensures n < |s| ==> s[n] == '/'
  {
    if s == "" || s[0] == '/' then 0 else
      assert s[1..][..Span(s[1..])] == s[1..1 + Span(s[1..])];
      1 + Span(s[1..])
  }

  function Components(s: string): seq<string>
    decreases |s|
  {
    if s == "" then []
    else if s[0] == '/' then Components(s[1..])
    else [s[..Span(s)]] + Components(s[Span(s)..])
  }

  lemma {:induction false} ComponentsAreNames(s: string)
    ensures forall c :: c in Components(s) ==> Name(c)
    decreases |s|
  {
    if s == "" {
    } else if s[0] == '/' {
      ComponentsAreNames(s[1..]);
    } else {
      ComponentsAreNames(s[Span(s)..]);
    }
  }

  function Slashes(n: nat): (s: string)
    ensures |s| == n && forall i :: 0 <= i < n ==> s[i] == '/'
  {
    if n == 0 then "" else "/" + Slashes(n - 1)
  }

  /** Names written with `gaps[i]` slashes before name `i`, and `gaps[|names|]` at the end. */
  function Spelled(names: seq<string>, gaps: seq<nat>): string
    requires |gaps| == |names| + 1
  {
    if names == [] then Slashes(gaps[0])
    else Slashes(gaps[0]) + (names[0] + Spelled(names[1..], gaps[1..]))
  }

  /** At least one slash between two names. */
  predicate Separated(names: seq<string>, gaps: seq<nat>) {
    |gaps| == |names| + 1 && forall i :: 0 < i < |names| ==> gaps[i] >= 1
  }

  lemma {:induction false} SkipSlashes(n: nat, t: string)
    ensures Components(Slashes(n) + t) == Components(t)
  {
    if n == 0 {
      assert Slashes(n) + t == t;
    } else {
      SkipSlashes(n - 1, t);
      assert (Slashes(n) + t)[1..] == Slashes(n - 1) + t;
    }
  }

  lemma {:induction false} SpanOfName(name: string, t: string)
    requires '/' !in name && (t == "" || t[0] == '/')
    ensures Span(name + t) == |name|
  {
    if name == "" {
      assert name + t == t;
    } else {
      assert (name + t)[1..] == name[1..] + t;
      SpanOfName(name[1..], t);
    }
  }

  lemma NameFirst(name: string, t: string)
    requires Name(name) && (t == "" || t[0] == '/')
    ensures Components(name + t) == [name] + Components(t)
  {
    SpanOfName(name, t);
    assert (name + t)[..|name|] == name && (name + t)[|name|..] == t;
  }

  /** Leading, repeated and trailing slashes do not matter. */
  lemma {:induction false} SlashesDoNotMatter(names: seq<string>, gaps: seq<nat>)
    requires Separated(names, gaps) && forall c :: c in names ==> Name(c)
    ensures Components(Spelled(names, gaps)) == names
  {
    if names == [] {
      SkipSlashes(gaps[0], "");
      assert Slashes(gaps[0]) + "" == Slashes(gaps[0]);
    } else {
      var rest := Spelled(names[1..], gaps[1..]);
      SlashesDoNotMatter(names[1..], gaps[1..]);
      assert rest == "" || rest[0] == '/';
      NameFirst(names[0], rest);
      SkipSlashes(gaps[0], names[0] + rest);
    }
  }

  lemma NameLeads(names: seq<string>, gaps: seq<nat>)
    requires |gaps| == |names| + 1 && names != [] && Name(names[0]) && gaps[0] == 0
    ensures Spelled(names, gaps) != "" && Spelled(names, gaps)[0] != '/'
  {
    assert Slashes(0) == "" && names[0][0] in names[0];
  }

  /** One slash more in front. */
  lemma SlashBefore(names: seq<string>, g: seq<nat>) returns (gaps: seq<nat>)
    requires Separated(names, g)
    ensures Separated(names, gaps) && Spelled(names, gaps) == "/" + Spelled(names, g)
  {
    gaps := g[0 := g[0] + 1];
    assert gaps[1..] == g[1..];
    assert Slashes(gaps[0]) == "/" + Slashes(g[0]);
  }

  /** One name more in front. */
  lemma NameBefore(name: string, names: seq<string>, g: seq<nat>) returns (gaps: seq<nat>)
    requires Separated(names, g) && (names != [] ==> g[0] >= 1)
    ensures Separated([name] + names, gaps) && Spelled([name] + names, gaps) == name + Spelled(names, g)
  {
    gaps := [0] + g;
    var all := [name] + names;
    assert gaps[1..] == g && all[1..] == names && all[0] == name;
    assert Spelled(all, gaps) == Slashes(0) + (name + Spelled(names, g));
  }

  /** Every path is a spelling of its components, so nothing but slashes is ignored. */
  lemma {:induction false} EveryPathIsSpelled(s: string) returns (gaps: seq<nat>)
    ensures Separated(Components(s), gaps) && s == Spelled(Components(s), gaps)
    decreases |s|
  {
    if s == "" {
      gaps := [0];
    } else if s[0] == '/' {
      var g := EveryPathIsSpelled(s[1..]);
      gaps := SlashBefore(Components(s[1..]), g);
    } else {
      var name, rest := s[..Span(s)], s[Span(s)..];
      var g := EveryPathIsSpelled(rest);
      if Components(rest) != [] && g[0] == 0 {
        ComponentsAreNames(rest);
        NameLeads(Components(rest), g);
        assert false;
      }
      gaps := NameBefore(name, Components(rest), g);
      assert s == name + rest;
    }
  }

  /** Where the slashes from place `i` on end. */
  method AfterSlashes(path: string, i: nat) returns (j: nat)
    requires i <= |path|
    ensures i <= j <= |path| && (j < |path| ==> path[j] != '/')
    ensures Components(path[j..]) == Components(path[i..])
  {
    j := i;
    while j < |path| && path[j] == '/'
      invariant i <= j <= |path| && Components(path[j..]) == Components(path[i..])
    {
      assert path[j..][1..] == path[j + 1..];
      j := j + 1;
    }
  }

  /** Where the name that starts at place `i` ends. */
  method AfterName(path: string, i: nat) returns (j: nat)
    requires i < |path| && path[i] != '/'
    ensures i < j <= |path| && Name(path[i..j])
    ensures Components(path[i..]) == [path[i..j]] + Components(path[j..])
  {
    j := i;
    while j < |path| && path[j] != '/'
      invariant i <= j <= |path| && '/' !in path[i..j]
    {
      j := j + 1;
    }
    assert path[i..] == path[i..j] + path[j..];
    NameFirst(path[i..j], path[j..]);
  }

  /** The first name in `path` and what follows it, if anything does. */
  method Split(path: string) returns (found: bool, name: string, rest: Option<string>)
    ensures found <==> Components(path) != []
    ensures found ==> name == Components(path)[0]
    ensures found ==> (rest.None? <==> |Components(path)| == 1)
    ensures found && rest.Some? ==> |rest.value| < |path| && Components(rest.value) == Components(path)[1..]
  {
    var start := AfterSlashes(path, 0);
    assert path[0..] == path;
    if start == |path| {
      return false, "", None;
    }
    var sep := AfterName(path, start);
    name := path[start..sep];
    sep := AfterSlashes(path, sep);
    return true, name, if sep < |path| then Some(path[sep..]) else None;
  }
}
