/**
 * getProxyEnvVariables and the environment a check runs in: with a proxy configured, the six
 * proxy variables are appended to the exporter's own environment; without one the check inherits
 * that environment unchanged.
 */
module ProxyEnvironment {
  import opened Wrappers
  import opened GoStrings

  /** An environment entry `name=value`. */
  function Assignment(name: String, value: String): String
  {
    name + "=" + value
  }

  /** The variables that carry the proxy URL. */
  const ProxyNames: seq<String> := ["HTTPS_PROXY", "HTTP_PROXY", "https_proxy", "http_proxy"]

  /** The variables that switch the proxy on. */
  const UseProxyNames: seq<String> := ["USE_PROXY", "use_proxy"]

  /** getProxyEnvVariables: the proxy URL under its four names, then the two switches set to "yes". */
  function ProxyVariables(proxy: String): seq<String>
  {
    [ Assignment("HTTPS_PROXY", proxy), Assignment("HTTP_PROXY", proxy),
      Assignment("https_proxy", proxy), Assignment("http_proxy", proxy),
      Assignment("USE_PROXY", "yes"), Assignment("use_proxy", "yes") ]
  }

  /**
   * The value a process sees for a variable: the last entry that assigns it wins, as when a
   * command's environment lists a name twice.
   */
  function EnvLookup(env: seq<String>, name: String): Option<String>
  {
    if env == [] then None
    else
      var entry := env[|env| - 1];
      if HasPrefix(entry, name + "=") then Some(entry[|name| + 1..])
      else EnvLookup(env[..|env| - 1], name)
  }

  /** An entry assigns exactly the variable it names, and gives it its value. */
  lemma AssignmentMatches(name: String, value: String, other: String)
    requires '=' !in name && '=' !in other
    ensures HasPrefix(Assignment(name, value), other + "=") <==> other == name
    ensures other == name ==> Assignment(name, value)[|other| + 1..] == value
  {
    var entry := Assignment(name, value);
    assert entry == name + ['='] + value;
    IndexOfAfter(name, '=', value);
    if HasPrefix(entry, other + "=") {
      assert entry[..|other|] == other;
      assert entry[|other|] == '=';
      assert |other| == |name|;
      assert other == name;
    }
    if other == name {
      assert entry[..|other| + 1] == other + "=";
    }
  }

  /** The lookup in a concatenation: the later part wins. */
  lemma {:induction false} EnvLookupAppend(a: seq<String>, b: seq<String>, name: String)
    ensures EnvLookup(a + b, name) == if EnvLookup(b, name).Some? then EnvLookup(b, name) else EnvLookup(a, name)
    decreases |b|
  {
    if b == [] {
      assert a + b == a;
    } else {
      assert (a + b)[..|a + b| - 1] == a + b[..|b| - 1];
      EnvLookupAppend(a, b[..|b| - 1], name);
    }
  }

  /** The last entry decides the lookup of the name it assigns, and is passed over for others. */
  lemma LookupLast(env: seq<String>, variable: String, value: String, name: String)
    requires '=' !in variable && '=' !in name
    ensures EnvLookup(env + [Assignment(variable, value)], name) ==
      if name == variable then Some(value) else EnvLookup(env, name)
  {
    AssignmentMatches(variable, value, name);
    assert (env + [Assignment(variable, value)])[..|env|] == env;
  }

  /** Every name assigned the same value, in order. */
  function Assignments(names: seq<String>, value: String): (r: seq<String>)
    ensures |r| == |names|
  {
    if names == [] then [] else Assignments(names[..|names| - 1], value) + [Assignment(names[|names| - 1], value)]
  }

  /** A list of assignments of one value sets exactly the names it lists. */
  lemma {:induction false} AssignmentsLookup(names: seq<String>, value: String, name: String)
    requires forall k | 0 <= k < |names| :: '=' !in names[k]
    requires '=' !in name
    ensures EnvLookup(Assignments(names, value), name) == if name in names then Some(value) else None
    decreases |names|
  {
    if names != [] {
      var init, last := names[..|names| - 1], names[|names| - 1];
      AssignmentsLookup(init, value, name);
      LookupLast(Assignments(init, value), last, value, name);
      assert names == init + [last];
    }
  }

  /** The six entries are the URL under the four proxy names, then "yes" under the two switches. */
  lemma ProxyVariablesByName(proxy: String)
    ensures ProxyVariables(proxy) == Assignments(ProxyNames, proxy) + Assignments(UseProxyNames, "yes")
  {
    var n, u := ProxyNames, UseProxyNames;
    assert n[..1][..0] == [] && u[..1][..0] == [];
    assert n[..2][..1] == n[..1] && n[..3][..2] == n[..2] && n[..3] == n[..|n| - 1];
    assert u[..1] == u[..|u| - 1];
    assert Assignments(n[..1], proxy) == [Assignment("HTTPS_PROXY", proxy)];
    assert Assignments(n[..2], proxy) == [Assignment("HTTPS_PROXY", proxy), Assignment("HTTP_PROXY", proxy)];
    assert Assignments(n[..3], proxy) ==
      [Assignment("HTTPS_PROXY", proxy), Assignment("HTTP_PROXY", proxy), Assignment("https_proxy", proxy)];
    assert Assignments(u[..1], "yes") == [Assignment("USE_PROXY", "yes")];
  }

  /** None of the variable names holds an '='. */
  lemma ProxyNamesPlain()
    ensures forall k | 0 <= k < |ProxyNames| :: '=' !in ProxyNames[k]
    ensures forall k | 0 <= k < |UseProxyNames| :: '=' !in UseProxyNames[k]
  {
  }

  /**
   * What the proxy variables set: the URL for the four proxy names, "yes" for the two switches,
   * nothing for any other name.
   */
  lemma ProxyVariablesLookup(proxy: String, name: String)
    requires '=' !in name
    ensures EnvLookup(ProxyVariables(proxy), name) ==
      if name in UseProxyNames then Some("yes")
      else if name in ProxyNames then Some(proxy)
      else None
  {
    ProxyVariablesByName(proxy);
    EnvLookupAppend(Assignments(ProxyNames, proxy), Assignments(UseProxyNames, "yes"), name);
    ProxyNamesPlain();
    AssignmentsLookup(ProxyNames, proxy, name);
    AssignmentsLookup(UseProxyNames, "yes", name);
  }

  /**
   * The environment given to the command: None leaves it unset, so the check inherits the
   * exporter's own; with a proxy the six variables are appended to the inherited entries.
   */
  function ChildEnvironment(parent: seq<String>, proxy: String): (r: Option<seq<String>>)
    ensures r.None? <==> proxy == []
    ensures r.Some? ==> |r.value| == |parent| + 6 && r.value[..|parent|] == parent && r.value[|parent|..] == ProxyVariables(proxy)
  {
    if |proxy| > 0 then Some(parent + ProxyVariables(proxy)) else None
  }

  /** The environment the check actually sees. */
  function EffectiveEnvironment(parent: seq<String>, proxy: String): seq<String>
  {
    match ChildEnvironment(parent, proxy)
    case Some(env) => env
    case None => parent
  }

  /**
   * The proxy settings never remove anything: a proxy variable holds the proxy, a switch holds
   * "yes", and every other variable keeps the exporter's value.
   */
  lemma ChildEnvironmentLookup(parent: seq<String>, proxy: String, name: String)
    requires '=' !in name
    ensures EnvLookup(EffectiveEnvironment(parent, proxy), name) ==
      if proxy == [] then EnvLookup(parent, name)
      else if name in UseProxyNames then Some("yes")
      else if name in ProxyNames then Some(proxy)
      else EnvLookup(parent, name)
  {
    if proxy != [] {
      EnvLookupAppend(parent, ProxyVariables(proxy), name);
      ProxyVariablesLookup(proxy, name);
    }
  }
}
