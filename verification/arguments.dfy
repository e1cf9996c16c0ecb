/**
 * The argument templater of the Nagios prober (parseNagiosArguments): a configured argument list
 * becomes the argv of the check. A first pass cuts every entry that starts with '-' at its first
 * space, so that "-H host" in a configuration file yields the two arguments "-H" and "host"; a
 * second pass replaces every `$name$` placeholder whose lower-cased name is a key of the
 * placeholder map and leaves every other placeholder as it is.
 */
module NagiosArguments {
  import opened Wrappers
  import opened GoStrings

  // ---------------------------------------------------------------------------------------------
  // First pass: splitting
  // ---------------------------------------------------------------------------------------------

  /**
   * The arguments one configured entry becomes: an entry is cut in two exactly when it starts with
   * '-' and holds a space, at its first space; joining the pieces with a space gives it back.
   */
  function SplitArgument(arg: String): (parts: seq<String>)
    ensures 1 <= |parts| <= 2
    ensures Join(parts, ' ') == arg
    ensures |parts| == 2 <==> HasPrefix(arg, "-") && ' ' in arg
    ensures |parts| == 2 ==> ' ' !in parts[0] && HasPrefix(parts[0], "-")
  {
    if HasPrefix(arg, "-") then Cut(arg, ' ') else [arg]
  }

  /** The first pass over the whole list: each entry's pieces, in the order of the entries. */
  function SplitArguments(args: seq<String>): seq<String>
  {
    if args == [] then [] else SplitArguments(args[..|args| - 1]) + SplitArgument(args[|args| - 1])
  }

  /** Splitting a concatenation splits each part on its own: the relative order is kept. */
  lemma {:induction false} SplitArgumentsAppend(a: seq<String>, b: seq<String>)
    ensures SplitArguments(a + b) == SplitArguments(a) + SplitArguments(b)
    decreases |b|
  {
    if b == [] {
      assert a + b == a;
    } else {
      var init, last := b[..|b| - 1], b[|b| - 1];
      assert (a + b)[..|a + b| - 1] == a + init;
      assert (a + b)[|a + b| - 1] == last;
      SplitArgumentsAppend(a, init);
      calc {
        SplitArguments(a + b);
        SplitArguments(a + init) + SplitArgument(last);
        SplitArguments(a) + SplitArguments(init) + SplitArgument(last);
        SplitArguments(a) + (SplitArguments(init) + SplitArgument(last));
        SplitArguments(a) + SplitArguments(b);
      }
    }
  }

  /** Every entry yields one or two arguments. */
  lemma {:induction false} SplitArgumentsLength(args: seq<String>)
    ensures |args| <= |SplitArguments(args)| <= 2 * |args|
  {
    if args != [] {
      SplitArgumentsLength(args[..|args| - 1]);
    }
  }

  /** A list in which no entry is both a dash option and holds a space is passed through unchanged. */
  lemma {:induction false} SplitArgumentsUnchanged(args: seq<String>)
    requires forall k | 0 <= k < |args| :: !(HasPrefix(args[k], "-") && ' ' in args[k])
    ensures SplitArguments(args) == args
  {
    if args != [] {
      SplitArgumentsUnchanged(args[..|args| - 1]);
      assert args == args[..|args| - 1] + [args[|args| - 1]];
    }
  }

  // ---------------------------------------------------------------------------------------------
  // Second pass: the placeholder pattern \$\S*\$
  // ---------------------------------------------------------------------------------------------

  /** RE2's \s, the class the pattern's \S excludes: tab, newline, form feed, carriage return, space. */
  predicate IsPatternSpace(c: char)
  {
    c == '\t' || c == '\n' || c == '\U{C}' || c == '\r' || c == ' '
  }

  /** The pattern matches s[i..j+1]: a '$' at i and at j, j > i, and no pattern space between them. */
  predicate IsToken(s: String, i: nat, j: nat)
  {
    i < j < |s| && s[i] == '$' && s[j] == '$' && forall k | i < k < j :: !IsPatternSpace(s[k])
  }

  /** The end of the run of non-space characters that starts at i. */
  function RunEnd(s: String, i: nat): (e: nat)
    requires i <= |s|
    ensures i <= e <= |s|
    ensures forall k | i <= k < e :: !IsPatternSpace(s[k])
    ensures e < |s| ==> IsPatternSpace(s[e])
    decreases |s| - i
  {
    if i == |s| || IsPatternSpace(s[i]) then i else RunEnd(s, i + 1)
  }

  /** The last '$' in s[lo..hi], if there is one. */
  function LastDollar(s: String, lo: nat, hi: nat): (r: Option<nat>)
    requires lo <= hi <= |s|
    ensures r.Some? ==> lo <= r.value < hi && s[r.value] == '$'
    ensures r.Some? ==> forall k | r.value < k < hi :: s[k] != '$'
    ensures r.None? ==> forall k | lo <= k < hi :: s[k] != '$'
    decreases hi - lo
  {
    if hi == lo then None
    else if s[hi - 1] == '$' then Some(hi - 1)
    else LastDollar(s, lo, hi - 1)
  }

  /**
   * Where the pattern's match that starts at the beginning of s ends, if one does: the last '$'
   * before the next space (MatchEndIsLongestToken says why).
   */
  function MatchEnd(s: String): (r: Option<nat>)
    ensures r.Some? ==> 0 < r.value < |s|
  {
    if |s| == 0 || s[0] != '$' then None else LastDollar(s, 1, RunEnd(s, 1))
  }

  /**
   * MatchEnd is the leftmost-first match of \$\S*\$ at the start of s: the quantifier \S* is
   * greedy, so of all the tokens that start at 0 the longest is taken, and there is none when
   * MatchEnd gives None.
   */
  lemma MatchEndIsLongestToken(s: String)
    ensures MatchEnd(s).Some? ==> IsToken(s, 0, MatchEnd(s).value)
    ensures MatchEnd(s).Some? ==> forall j: nat | MatchEnd(s).value < j :: !IsToken(s, 0, j)
    ensures MatchEnd(s).None? ==> forall j: nat :: !IsToken(s, 0, j)
  {
    if |s| > 0 && s[0] == '$' {
      var e := RunEnd(s, 1);
      forall j: nat | IsToken(s, 0, j) ensures j < e {
        assert forall k | 1 <= k <= j :: !IsPatternSpace(s[k]);
      }
    }
  }

  /** The name a token is looked up under: its text without the surrounding '$'s, lower-cased. */
  function PlaceholderName(token: String): String
  {
    ToLower(TrimDollars(token))
  }

  /** A token's replacement: the placeholder's value if its name is a key, else the token itself. */
  function Replacement(token: String, values: map<String, String>): (r: String)
    ensures PlaceholderName(token) in values ==> r == values[PlaceholderName(token)]
    ensures PlaceholderName(token) !in values ==> r == token
  {
    var name := PlaceholderName(token);
    if name in values then values[name] else token
  }

  /**
   * regexp's ReplaceAllStringFunc for the placeholder pattern: scanning from the left, the leftmost
   * token is replaced and the scan resumes after it; characters where no token starts are kept.
   */
  function Substitute(s: String, values: map<String, String>): String
    decreases |s|
  {
    if s == [] then []
    else
      match MatchEnd(s)
      case Some(j) => Replacement(s[..j + 1], values) + Substitute(s[j + 1..], values)
      case None => [s[0]] + Substitute(s[1..], values)
  }

  /** The tokens the scan of Substitute replaces, from left to right. */
  function Tokens(s: String): seq<String>
    decreases |s|
  {
    if s == [] then []
    else
      match MatchEnd(s)
      case Some(j) => [s[..j + 1]] + Tokens(s[j + 1..])
      case None => Tokens(s[1..])
  }

  /** s holds a substring the placeholder pattern matches. */
  predicate ContainsToken(s: String)
  {
    exists i, j | 0 <= i < j < |s| :: IsToken(s, i, j)
  }

  lemma TokenShift(s: String, i: nat, j: nat, d: nat)
    requires d <= i < j && d <= |s| && IsToken(s[d..], i - d, j - d)
    ensures IsToken(s, i, j)
  {
    forall k | i < k < j ensures !IsPatternSpace(s[k]) {
      assert s[k] == s[d..][k - d];
    }
  }

  lemma TokenUnshift(s: String, i: nat, j: nat, d: nat)
    requires d <= i && IsToken(s, i, j) && d <= |s|
    ensures IsToken(s[d..], i - d, j - d)
  {
  }

  /** The scan finds a token exactly when the pattern matches somewhere in the argument. */
  lemma {:induction false} TokensIffContainsToken(s: String)
    ensures Tokens(s) != [] <==> ContainsToken(s)
    decreases |s|
  {
    if s != [] {
      MatchEndIsLongestToken(s);
      match MatchEnd(s) {
        case Some(j) =>
          assert IsToken(s, 0, j);
        case None =>
          TokensIffContainsToken(s[1..]);
          if ContainsToken(s[1..]) {
            var i, j :| 0 <= i < j < |s[1..]| && IsToken(s[1..], i, j);
            TokenShift(s, i + 1, j + 1, 1);
          }
          if ContainsToken(s) {
            var i, j :| 0 <= i < j < |s| && IsToken(s, i, j);
            assert i != 0;
            TokenUnshift(s, i, j, 1);
          }
      }
    }
  }

  lemma {:induction false} SubstituteEmpty(s: String)
    ensures Substitute(s, map[]) == s
    decreases |s|
  {
    if s != [] {
      SubstituteUnfold(s, map[]);
      var n := match MatchEnd(s) case Some(j) => j + 1 case None => 1;
      assert s[..n] == (match MatchEnd(s) case Some(j) => Replacement(s[..n], map[]) case None => [s[0]]);
      SubstituteEmpty(s[n..]);
      assert s[..n] + s[n..] == s;
    }
  }

  /** Placeholders that are not keys of the map are kept byte for byte, '$'s included. */
  lemma SubstituteKeepsUnknown(s: String, values: map<String, String>)
    requires forall t | t in Tokens(s) :: PlaceholderName(t) !in values
    ensures Substitute(s, values) == s
  {
    SubstituteIgnoresUnusedKeys(s, values, values.Keys);
    assert values - values.Keys == map[];
    SubstituteEmpty(s);
  }

  /** An argument in which the pattern matches nowhere is returned unchanged, whatever the map. */
  lemma SubstituteWithoutToken(s: String, values: map<String, String>)
    requires !ContainsToken(s)
    ensures Substitute(s, values) == s
  {
    TokensIffContainsToken(s);
    SubstituteKeepsUnknown(s, values);
  }

  /** A run from '$' to '$' with no space in between is one token, however many '$'s it holds. */
  lemma WholeToken(t: String)
    requires |t| >= 2 && IsToken(t, 0, |t| - 1)
    ensures MatchEnd(t) == Some(|t| - 1)
  {
    MatchEndIsLongestToken(t);
  }

  /**
   * An argument that is one token is replaced as a whole: by the value of its lower-cased,
   * '$'-trimmed name when that is a key, and kept as it is otherwise.
   */
  lemma SubstituteWholeToken(t: String, values: map<String, String>)
    requires |t| >= 2 && IsToken(t, 0, |t| - 1)
    ensures Substitute(t, values) == Replacement(t, values)
  {
    WholeToken(t);
    assert t[..|t|] == t;
    assert t[|t|..] == [];
  }

  /** When b starts with a space no token runs from a into b. */
  lemma MatchEndBeforeSpace(a: String, b: String)
    requires a != [] && b != [] && IsPatternSpace(b[0])
    ensures MatchEnd(a + b) == MatchEnd(a)
  {
    var s := a + b;
    forall j: nat ensures IsToken(s, 0, j) <==> IsToken(a, 0, j) {
      if j >= |a| {
        assert |a| < |s| && s[|a|] == b[0];
      } else {
        assert forall k | 0 <= k <= j :: s[k] == a[k];
      }
    }
    MatchEndIsLongestToken(a);
    MatchEndIsLongestToken(s);
    match MatchEnd(a) {
      case Some(j) =>
        assert IsToken(s, 0, j);
      case None =>
    }
    match MatchEnd(s) {
      case Some(j) =>
        assert IsToken(a, 0, j);
      case None =>
    }
  }

  /** One step of the scan. */
  lemma SubstituteUnfold(s: String, values: map<String, String>)
    requires s != []
    ensures MatchEnd(s).Some? ==>
      var n := MatchEnd(s).value + 1;
      Substitute(s, values) == Replacement(s[..n], values) + Substitute(s[n..], values)
    ensures MatchEnd(s).None? ==> Substitute(s, values) == [s[0]] + Substitute(s[1..], values)
  {
  }

  /** One step of the scan, for the tokens it finds. */
  lemma TokensUnfold(s: String)
    requires s != []
    ensures MatchEnd(s).Some? ==>
      var n := MatchEnd(s).value + 1;
      Tokens(s) == [s[..n]] + Tokens(s[n..])
    ensures MatchEnd(s).None? ==> Tokens(s) == Tokens(s[1..])
  {
  }

  /** The name of the token `$name$` when name neither starts nor ends with '$'. */
  lemma TokenName(name: String)
    requires name != [] && name[0] != '$' && name[|name| - 1] != '$'
    ensures PlaceholderName("$" + name + "$") == ToLower(name)
  {
    var t := "$" + name + "$";
    assert KeptFrom(t, IsDollar, 1) == 1;
    assert KeptFrom(t, IsDollar, 0) == 1;
    assert KeptUntil(t, IsDollar, |t| - 1) == |t| - 1;
    assert KeptUntil(t, IsDollar, |t|) == |t| - 1;
    assert t[1..|t| - 1] == name;
  }

  /** The greedy match: `$a$$b$` is a single placeholder named `a$$b`, not two. */
  lemma GreedyToken(values: map<String, String>)
    requires "a$$b" in values
    ensures Substitute("$a$$b$", values) == values["a$$b"]
  {
    var name := "a$$b";
    assert "$" + name + "$" == "$a$$b$";
    assert forall k | 0 <= k < |name| :: !IsUpperAscii(name[k]);
    assert ToLower(name) == name;
    PlaceholderLookup(name, values);
  }

  /**
   * `$name$`, for a name without spaces that neither starts nor ends with '$', is looked up under
   * the lower-cased name: `$TARGET$` is replaced by the value of the key "target".
   */
  lemma PlaceholderLookup(name: String, values: map<String, String>)
    requires name != [] && name[0] != '$' && name[|name| - 1] != '$'
    requires forall k | 0 <= k < |name| :: !IsPatternSpace(name[k])
    requires ToLower(name) in values
    ensures Substitute("$" + name + "$", values) == values[ToLower(name)]
  {
    var t := "$" + name + "$";
    forall k | 0 < k < |t| - 1 ensures !IsPatternSpace(t[k]) {
      assert t[k] == name[k - 1];
    }
    assert IsToken(t, 0, |t| - 1);
    SubstituteWholeToken(t, values);
    TokenName(name);
  }

  /**
   * The names looked up are lower-cased but the keys are not: a key holding an upper-case letter
   * is never used, whatever the argument.
   */
  lemma UpperCaseKeyUnused(key: String, s: String, values: map<String, String>)
    requires exists k | 0 <= k < |key| :: IsUpperAscii(key[k])
    ensures forall t | t in Tokens(s) :: PlaceholderName(t) != key
    ensures Substitute(s, values) == Substitute(s, values - {key})
  {
    var k :| 0 <= k < |key| && IsUpperAscii(key[k]);
    forall t | t in Tokens(s) ensures PlaceholderName(t) != key {
      var name := PlaceholderName(t);
      if |name| == |key| {
        assert !IsUpperAscii(name[k]);
      }
    }
    SubstituteIgnoresUnusedKeys(s, values, {key});
  }

  /** Keys that no token of s is named after can be dropped from the map. */
  lemma {:induction false} SubstituteIgnoresUnusedKeys(s: String, values: map<String, String>, keys: set<String>)
    requires forall t | t in Tokens(s) :: PlaceholderName(t) !in keys
    ensures Substitute(s, values) == Substitute(s, values - keys)
    decreases |s|
  {
    if s != [] {
      SubstituteUnfold(s, values);
      SubstituteUnfold(s, values - keys);
      TokensUnfold(s);
      var n := match MatchEnd(s) case Some(j) => j + 1 case None => 1;
      assert MatchEnd(s).Some? ==> s[..n] in Tokens(s);
      SubstituteIgnoresUnusedKeys(s[n..], values, keys);
    }
  }

  /** A character other than '$' starts no token: it is copied and the scan moves on. */
  lemma SubstitutePlainChar(c: char, rest: String, values: map<String, String>)
    requires c != '$'
    ensures Substitute([c] + rest, values) == [c] + Substitute(rest, values)
  {
    var s := [c] + rest;
    assert s[0] == c && s[1..] == rest;
    SubstituteUnfold(s, values);
  }

  /** A map on strings that copies every character other than '$' copies a prefix without one. */
  lemma {:induction false} CopiesPlainPrefix(f: String -> String, p: String, rest: String)
    requires forall c, x | c != '$' :: f([c] + x) == [c] + f(x)
    requires '$' !in p
    ensures f(p + rest) == p + f(rest)
    decreases |p|
  {
    if p == [] {
      assert p + rest == rest;
    } else {
      var c, tail := p[0], p[1..];
      assert c in p && p == [c] + tail;
      assert p + rest == [c] + (tail + rest);
      CopiesPlainPrefix(f, tail, rest);
      assert [c] + (tail + f(rest)) == p + f(rest);
    }
  }

  /** Characters before the first '$' are copied as they are, and the scan goes on after them. */
  lemma SubstitutePlainPrefix(p: String, rest: String, values: map<String, String>)
    requires '$' !in p
    ensures Substitute(p + rest, values) == p + Substitute(rest, values)
  {
    forall c, x | c != '$' ensures Substitute([c] + x, values) == [c] + Substitute(x, values) {
      SubstitutePlainChar(c, x, values);
    }
    CopiesPlainPrefix(x => Substitute(x, values), p, rest);
  }

  /**
   * A token t followed by text q whose run up to the next white space holds no '$': the match
   * that starts at t ends at t's last '$', however q goes on.
   */
  lemma MatchEndOfToken(t: String, q: String)
    requires |t| >= 2 && IsToken(t, 0, |t| - 1)
    requires '$' !in q[..RunEnd(q, 0)]
    ensures MatchEnd(t + q) == Some(|t| - 1)
  {
    var s := t + q;
    var e := RunEnd(q, 0);
    forall k | 0 <= k < |t| ensures s[k] == t[k] { }
    assert IsToken(s, 0, |t| - 1);
    // a '$' in q lies past a space, so no token reaches it
    forall j: nat | |t| <= j < |s| && s[j] == '$' ensures 0 < |t| + e < j && IsPatternSpace(s[|t| + e]) {
      var d := j - |t|;
      assert q[d] == s[j];
      assert forall k | 0 <= k < e :: q[..e][k] == q[k];
      assert e < |q| && s[|t| + e] == q[e];
    }
    MatchEndIsLongestToken(s);
  }

  /** A token at the start is replaced, and the scan resumes right after it. */
  lemma SubstituteTokenThen(t: String, q: String, values: map<String, String>)
    requires |t| >= 2 && IsToken(t, 0, |t| - 1)
    requires '$' !in q[..RunEnd(q, 0)]
    ensures Substitute(t + q, values) == Replacement(t, values) + Substitute(q, values)
  {
    MatchEndOfToken(t, q);
    var s := t + q;
    assert s[..|t|] == t && s[|t|..] == q;
    SubstituteUnfold(s, values);
  }

  /**
   * A token anywhere in an argument: the text before it, which holds no '$', is kept; the token
   * is replaced by its Replacement (its value when its name is a key, itself otherwise); and the
   * rest is substituted on its own, so an unknown token next to a replaced one is kept as it is.
   */
  lemma SubstituteEmbeddedToken(p: String, t: String, q: String, values: map<String, String>)
    requires '$' !in p
    requires |t| >= 2 && IsToken(t, 0, |t| - 1)
    requires '$' !in q[..RunEnd(q, 0)]
    ensures Substitute(p + (t + q), values) == p + (Replacement(t, values) + Substitute(q, values))
  {
    SubstituteTokenThen(t, q, values);
    SubstitutePlainPrefix(p, t + q, values);
  }

  /**
   * Two tokens separated by a space, as in `x$a$ $b$`: the first is replaced and the second, whose
   * name is not a key, is kept as it is.
   */
  lemma ReplacedBesideKept(p: String, t: String, u: String, values: map<String, String>)
    requires '$' !in p
    requires |t| >= 2 && IsToken(t, 0, |t| - 1)
    requires |u| >= 2 && IsToken(u, 0, |u| - 1) && PlaceholderName(u) !in values
    ensures Substitute(p + (t + ([' '] + u)), values) == p + (Replacement(t, values) + ([' '] + u))
  {
    var q := [' '] + u;
    assert q[..RunEnd(q, 0)] == [];
    SubstituteEmbeddedToken(p, t, q, values);
    SubstitutePlainChar(' ', u, values);
    SubstituteWholeToken(u, values);
  }

  // ---------------------------------------------------------------------------------------------
  // Both passes
  // ---------------------------------------------------------------------------------------------

  /** f applied to every element, in order. */
  function Each(f: String -> String, xs: seq<String>): (r: seq<String>)
    ensures |r| == |xs|
    ensures forall k | 0 <= k < |xs| :: r[k] == f(xs[k])
  {
    seq(|xs|, k requires 0 <= k < |xs| => f(xs[k]))
  }

  lemma EachAppend(f: String -> String, a: seq<String>, b: seq<String>)
    ensures Each(f, a + b) == Each(f, a) + Each(f, b)
  {
    assert forall k | 0 <= k < |a + b| :: Each(f, a + b)[k] == (Each(f, a) + Each(f, b))[k];
  }

  /** The argv built from a configured list: split, then every argument substituted. */
  function ParseArguments(args: seq<String>, values: map<String, String>): seq<String>
  {
    Each(s => Substitute(s, values), SplitArguments(args))
  }

  /** The argv has one or two arguments per configured entry. */
  lemma ParseArgumentsLength(args: seq<String>, values: map<String, String>)
    ensures |args| <= |ParseArguments(args, values)| <= 2 * |args|
  {
    SplitArgumentsLength(args);
  }

  /** Entries are turned into arguments independently and in order. */
  lemma ParseArgumentsAppend(a: seq<String>, b: seq<String>, values: map<String, String>)
    ensures ParseArguments(a + b, values) == ParseArguments(a, values) + ParseArguments(b, values)
  {
    SplitArgumentsAppend(a, b);
    EachAppend(s => Substitute(s, values), SplitArguments(a), SplitArguments(b));
  }

  /** A list with nothing to split and no placeholder is passed to the check unchanged. */
  lemma ParseArgumentsUnchanged(args: seq<String>, values: map<String, String>)
    requires forall k | 0 <= k < |args| :: !(HasPrefix(args[k], "-") && ' ' in args[k])
    requires forall k | 0 <= k < |args| :: !ContainsToken(args[k])
    ensures ParseArguments(args, values) == args
  {
    SplitArgumentsUnchanged(args);
    forall k | 0 <= k < |args| ensures Substitute(args[k], values) == args[k] {
      SubstituteWithoutToken(args[k], values);
    }
  }

  /** The first loop of parseNagiosArguments: dash options are cut at their first space. */
  method SplitPass(args: seq<String>) returns (split: seq<String>)
    ensures split == SplitArguments(args)
  {
    split := [];
    var i := 0;
    while i < |args|
      invariant 0 <= i <= |args|
      invariant split == SplitArguments(args[..i])
    {
      var arg := args[i];
      assert args[..i + 1][..i] == args[..i];
      assert SplitArguments(args[..i + 1]) == split + SplitArgument(arg);
      if HasPrefix(arg, "-") {
        split := split + Cut(arg, ' ');
      } else {
        split := split + [arg];
      }
      i := i + 1;
    }
    assert args[..i] == args;
  }

  /** The second loop of parseNagiosArguments: every argument has its placeholders substituted. */
  method SubstitutePass(split: seq<String>, values: map<String, String>) returns (newArgs: seq<String>)
    ensures |newArgs| == |split|
    ensures forall k | 0 <= k < |split| :: newArgs[k] == Substitute(split[k], values)
  {
    newArgs := [];
    var i := 0;
    while i < |split|
      invariant 0 <= i <= |split|
      invariant |newArgs| == i
      invariant forall k | 0 <= k < i :: newArgs[k] == Substitute(split[k], values)
    {
      newArgs := newArgs + [Substitute(split[i], values)];
      i := i + 1;
    }
  }

  /** parseNagiosArguments: the two passes, one loop each. */
  method ParseNagiosArguments(args: seq<String>, values: map<String, String>) returns (newArgs: seq<String>)
    ensures newArgs == ParseArguments(args, values)
  {
    var split := SplitPass(args);
    newArgs := SubstitutePass(split, values);
  }
}
