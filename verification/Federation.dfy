/**
 Federation: loading the routing configuration, and resolving routes from it.
 */
module Federation {
  import opened Options
  import opened Ids

  // ----- the configuration file -----

  datatype Mode = Local | Remote | Combined

  datatype WriteTarget = ToLocal | ToRemote | ToBoth

  datatype RuleV1 = RuleV1(mode: Mode, remote: Option<string>, write: Option<WriteTarget>)

  datatype RemoteV1 = RemoteV1(
    name: string, url: string, token: Option<string>, tokenEnv: Option<string>,
    oauthClientId: Option<string>, timeoutMs: Option<nat>)

  datatype Section = Section(
    remotes: seq<RemoteV1>, defaultMode: Option<Mode>, defaultRemote: Option<string>,
    wings: map<string, RuleV1>, kg: Option<RuleV1>, coordination: map<string, RuleV1>)

  // ----- the runtime configuration -----

  datatype Rule = Rule(mode: Mode, remote: Option<string>, write: WriteTarget)

  datatype RemoteServer = RemoteServer(
    name: string, url: string, token: Option<string>, oauthClientId: Option<string>, timeoutMs: nat)

  datatype Runtime = Runtime(
    remotes: map<string, RemoteServer>, defaultMode: Mode, defaultRemote: Option<string>,
    wings: map<string, Rule>, kg: Option<Rule>, coordination: map<string, Rule>)

  const LOCAL_RULE := Rule(Local, None, ToLocal)

  const DEFAULT_TIMEOUT_MS: nat := 5_000

  // ----- remotes -----

  function Until(s: string, stop: char): string {
    if s == [] || s[0] == stop then [] else [s[0]] + Until(s[1..], stop)
  }

  predicate LoopbackHttp(url: string) {
    && "http://" <= url
    && var authority := Until(url[7..], '/');
       var host := if "[" <= authority then Until(authority[1..], ']') else Until(authority, ':');
       host == "localhost" || host == "127.0.0.1" || host == "::1"
  }

  predicate UrlOk(url: string) {
    "https://" <= url || ("http://" <= url && LoopbackHttp(url))
  }

  predicate RemoteOk(space: char -> bool, raw: RemoteV1) {
    && raw.name != ""
    && UrlOk(Trim(space, raw.url))
    && (raw.oauthClientId.Some? ==> Trim(space, raw.oauthClientId.value) != "")
  }

  function Token(env: string -> Option<string>, raw: RemoteV1): Option<string> {
    if raw.tokenEnv.Some? && env(raw.tokenEnv.value).Some? && env(raw.tokenEnv.value).value != ""
    then env(raw.tokenEnv.value) else raw.token
  }

  function Server(space: char -> bool, env: string -> Option<string>, raw: RemoteV1): RemoteServer {
    RemoteServer(raw.name, Trim(space, raw.url), Token(env, raw), raw.oauthClientId,
                 if raw.timeoutMs.Some? then raw.timeoutMs.value else DEFAULT_TIMEOUT_MS)
  }

  // ----- rules -----

  lemma OnlyOne<T>(s: set<T>, x: T, y: T)
    requires |s| == 1 && x in s && y in s
    ensures x == y
  {
    assert |s - {x}| == 0;
  }

  /** The single configured remote, if there is exactly one. */
  function InferSingle(remotes: set<string>): (r: Option<string>)
    ensures r.Some? <==> |remotes| == 1
    ensures r.Some? ==> remotes == {r.value}
  {
    if |remotes| != 1 then None
    else
      assert remotes != {};
      assert forall x, y :: x in remotes && y in remotes ==> x == y by {
        forall x, y | x in remotes && y in remotes
          ensures x == y
        {
          OnlyOne(remotes, x, y);
        }
      }
      var name :| name in remotes;
      Some(name)
  }

  /** The remote a non-local rule goes to: the one it names, or else the only one there is. */
  function TargetOf(named: Option<string>, remotes: set<string>): (r: Option<string>)
    ensures r.Some? ==> r.value in remotes
  {
    if named.Some? then (if named.value in remotes then named else None) else InferSingle(remotes)
  }

  function Written(mode: Mode, write: Option<WriteTarget>): WriteTarget {
    if mode == Combined && write.Some? then write.value else ToLocal
  }

  /** `resolve_rule`, and `resolve_project_rule`, which applies the same checks to a project override. */
  function ResolveRule(rule: RuleV1, remotes: set<string>): Option<Rule> {
    if rule.mode == Local then Some(Rule(Local, None, ToLocal))
    else
      var target := TargetOf(rule.remote, remotes);
      if target.None? then None else Some(Rule(rule.mode, target, Written(rule.mode, rule.write)))
  }

  // ----- what a well-formed route and configuration are -----

  /** A remote exactly when not local, a configured one, and a non-local write target only when combined. */
  predicate RouteOk(remotes: set<string>, rule: Rule) {
    && (rule.remote.Some? <==> rule.mode != Local)
    && (rule.remote.Some? ==> rule.remote.value in remotes)
    && (rule.write != ToLocal ==> rule.mode == Combined)
  }

  ghost predicate WellFormed(rt: Runtime) {
    && (forall name :: name in rt.remotes ==> name != "" && rt.remotes[name].name == name && UrlOk(rt.remotes[name].url))
    && (rt.defaultRemote.Some? <==> rt.defaultMode != Local)
    && (rt.defaultRemote.Some? ==> rt.defaultRemote.value in rt.remotes)
    && (forall w :: w in rt.wings ==> RouteOk(rt.remotes.Keys, rt.wings[w]))
    && (rt.kg.Some? ==> RouteOk(rt.remotes.Keys, rt.kg.value))
    && (forall w :: w in rt.coordination ==>
          RouteOk(rt.remotes.Keys, rt.coordination[w]) && Canonical(w) && rt.coordination[w].write != ToBoth)
  }

  lemma ResolvedIsOk(rule: RuleV1, remotes: set<string>)
    ensures ResolveRule(rule, remotes).Some? ==> RouteOk(remotes, ResolveRule(rule, remotes).value)
  {
  }

  // ----- when a configuration is accepted -----

  ghost predicate Resolvable(rule: RuleV1, remotes: set<string>) {
    || rule.mode == Local
    || (if rule.remote.Some? then rule.remote.value in remotes else |remotes| == 1)
  }

  function NamesOf(remotes: seq<RemoteV1>): set<string> {
    set i | 0 <= i < |remotes| :: remotes[i].name
  }

  ghost predicate DistinctNames(remotes: seq<RemoteV1>) {
    forall i, j :: 0 <= i < j < |remotes| ==> remotes[i].name != remotes[j].name
  }

  ghost predicate DefaultOk(section: Section) {
    if section.defaultMode.None? || section.defaultMode.value == Local then section.defaultRemote.None?
    else if section.defaultRemote.Some? then section.defaultRemote.value in NamesOf(section.remotes)
    else |NamesOf(section.remotes)| == 1
  }

  ghost predicate CoordinationOk(wing: string, rule: RuleV1, remotes: set<string>) {
    && Canonical(wing)
    && Resolvable(rule, remotes)
    && !(rule.mode == Combined && rule.write == Some(ToBoth))
  }

  /** Exactly the sections that load. */
  ghost predicate Acceptable(space: char -> bool, section: Section) {
    var names := NamesOf(section.remotes);
    && (forall i :: 0 <= i < |section.remotes| ==> RemoteOk(space, section.remotes[i]))
    && DistinctNames(section.remotes)
    && (forall w :: w in section.wings ==> Resolvable(section.wings[w], names))
    && (section.kg.Some? ==> Resolvable(section.kg.value, names))
    && (forall w :: w in section.coordination ==> CoordinationOk(w, section.coordination[w], names))
    && DefaultOk(section)
  }

  // ----- loading -----

  method LoadRemotes(space: char -> bool, env: string -> Option<string>, raws: seq<RemoteV1>)
    returns (remotes: Option<map<string, RemoteServer>>)
    ensures remotes.Some? <==> (forall i :: 0 <= i < |raws| ==> RemoteOk(space, raws[i])) && DistinctNames(raws)
    ensures remotes.Some? ==> remotes.value.Keys == NamesOf(raws)
    ensures remotes.Some? ==>
              forall i :: 0 <= i < |raws| ==> remotes.value[raws[i].name] == Server(space, env, raws[i])
  {
    hide RemoteOk, Server;
    var loaded: map<string, RemoteServer> := map[];
    for i := 0 to |raws|
      invariant loaded.Keys == set k | 0 <= k < i :: raws[k].name
      invariant forall k :: 0 <= k < i ==> RemoteOk(space, raws[k])
      invariant forall k :: 0 <= k < i ==> raws[k].name in loaded && loaded[raws[k].name] == Server(space, env, raws[k])
      invariant forall j, k :: 0 <= j < k < i ==> raws[j].name != raws[k].name
    {
      var raw := raws[i];
      if !RemoteOk(space, raw) {
        return None;
      }
      if raw.name in loaded {
        assert !DistinctNames(raws);
        return None;
      }
      loaded := loaded[raw.name := Server(space, env, raw)];
    }
    return Some(loaded);
  }

  /** Resolve every rule of a table, or fail at the first that cannot be resolved. */
  method LoadTable(table: map<string, RuleV1>, remotes: set<string>) returns (rules: Option<map<string, Rule>>)
    ensures rules.Some? <==> forall w :: w in table ==> Resolvable(table[w], remotes)
    ensures rules.Some? ==> rules.value.Keys == table.Keys
    ensures rules.Some? ==>
              forall w :: w in table ==> Some(rules.value[w]) == ResolveRule(table[w], remotes)
  {
    var loaded: map<string, Rule> := map[];
    var left := table.Keys;
    while left != {}
      invariant left <= table.Keys && loaded.Keys == table.Keys - left
      invariant forall w :: w in loaded ==> Resolvable(table[w], remotes) && Some(loaded[w]) == ResolveRule(table[w], remotes)
      decreases left
    {
      var w :| w in left;
      var rule := ResolveRule(table[w], remotes);
      if rule.None? {
        return None;
      }
      loaded := loaded[w := rule.value];
      left := left - {w};
    }
    return Some(loaded);
  }

  method LoadCoordination(space: char -> bool, table: map<string, RuleV1>, remotes: set<string>)
    returns (rules: Option<map<string, Rule>>)
    requires SpaceOk(space)
    ensures rules.Some? <==> forall w :: w in table ==> CoordinationOk(w, table[w], remotes)
    ensures rules.Some? ==> rules.value.Keys == table.Keys
    ensures rules.Some? ==>
              forall w :: w in table ==> Some(rules.value[w]) == ResolveRule(table[w], remotes)
  {
    hide Normalized, Canonical;
    var loaded: map<string, Rule> := map[];
    var left := table.Keys;
    while left != {}
      invariant left <= table.Keys && loaded.Keys == table.Keys - left
      invariant forall w :: w in loaded ==>
                  CoordinationOk(w, table[w], remotes) && Some(loaded[w]) == ResolveRule(table[w], remotes)
      decreases left
    {
      var w :| w in left;
      CanonicalIsFixed(space, w);
      if Normalized(space, w) != Some(w) {
        return None;
      }
      var rule := ResolveRule(table[w], remotes);
      if rule.None? || rule.value.write == ToBoth {
        return None;
      }
      loaded := loaded[w := rule.value];
      left := left - {w};
    }
    return Some(loaded);
  }

  /** What a loaded section says: each table resolved rule by rule, each remote under its name. */
  ghost predicate LoadedFrom(space: char -> bool, env: string -> Option<string>, section: Section, rt: Runtime) {
    && rt.remotes.Keys == NamesOf(section.remotes)
    && (forall i :: 0 <= i < |section.remotes| ==>
          rt.remotes[section.remotes[i].name] == Server(space, env, section.remotes[i]))
    && rt.wings.Keys == section.wings.Keys
    && (forall w :: w in section.wings ==> Some(rt.wings[w]) == ResolveRule(section.wings[w], rt.remotes.Keys))
    && rt.kg == (if section.kg.None? then None else ResolveRule(section.kg.value, rt.remotes.Keys))
    && rt.coordination.Keys == section.coordination.Keys
    && (forall w :: w in section.coordination ==>
          Some(rt.coordination[w]) == ResolveRule(section.coordination[w], rt.remotes.Keys))
    && rt.defaultMode == (if section.defaultMode.None? then Local else section.defaultMode.value)
    && (if rt.defaultMode == Local then rt.defaultRemote == None
        else rt.defaultRemote == TargetOf(section.defaultRemote, rt.remotes.Keys))
  }

  /** Without a federation section everything is local. */
  const LOCAL_ONLY := Runtime(map[], Local, None, map[], None, map[])

  /** `resolve_federation_config`: a missing section is local, and of the others exactly the acceptable ones load. */
  method Load(space: char -> bool, env: string -> Option<string>, section: Option<Section>) returns (rt: Option<Runtime>)
    requires SpaceOk(space)
    ensures rt.Some? <==> section.None? || Acceptable(space, section.value)
    ensures section.None? ==> rt == Some(LOCAL_ONLY)
    ensures section.Some? && rt.Some? ==> LoadedFrom(space, env, section.value, rt.value)
    ensures rt.Some? ==> WellFormed(rt.value)
  {
    if section.None? {
      return Some(LOCAL_ONLY);
    }
    rt := LoadSection(space, env, section.value);
  }

  method LoadSection(space: char -> bool, env: string -> Option<string>, section: Section) returns (rt: Option<Runtime>)
    requires SpaceOk(space)
    ensures rt.Some? <==> Acceptable(space, section)
    ensures rt.Some? ==> LoadedFrom(space, env, section, rt.value) && WellFormed(rt.value)
  {
    hide RemoteOk, Server, Canonical;
    var remotes := LoadRemotes(space, env, section.remotes);
    if remotes.None? {
      return None;
    }
    var names := remotes.value.Keys;
    var wings := LoadTable(section.wings, names);
    if wings.None? {
      return None;
    }
    if section.kg.Some? && ResolveRule(section.kg.value, names).None? {
      return None;
    }
    var coordination := LoadCoordination(space, section.coordination, names);
    if coordination.None? {
      return None;
    }
    var defaultMode := if section.defaultMode.None? then Local else section.defaultMode.value;
    var defaultRemote := None;
    if defaultMode == Local {
      if section.defaultRemote.Some? {
        return None;
      }
    } else {
      defaultRemote := TargetOf(section.defaultRemote, names);
      if defaultRemote.None? {
        return None;
      }
    }
    var kg := if section.kg.None? then None else ResolveRule(section.kg.value, names);
    rt := Some(Runtime(remotes.value, defaultMode, defaultRemote, wings.value, kg, coordination.value));
    LoadedIsWellFormed(space, env, section, rt.value);
  }

  lemma LoadedRemotesAreOk(space: char -> bool, env: string -> Option<string>, section: Section, rt: Runtime)
    requires Acceptable(space, section) && LoadedFrom(space, env, section, rt)
    ensures forall name :: name in rt.remotes ==>
              name != "" && rt.remotes[name].name == name && UrlOk(rt.remotes[name].url)
  {
    hide ResolveRule, UrlOk, Canonical, Token;
    forall name | name in rt.remotes
      ensures name != "" && rt.remotes[name].name == name && UrlOk(rt.remotes[name].url)
    {
      var i :| 0 <= i < |section.remotes| && section.remotes[i].name == name;
      assert RemoteOk(space, section.remotes[i]);
      assert rt.remotes[section.remotes[i].name] == Server(space, env, section.remotes[i]);
    }
  }

  lemma LoadedRulesAreOk(space: char -> bool, env: string -> Option<string>, section: Section, rt: Runtime)
    requires Acceptable(space, section) && LoadedFrom(space, env, section, rt)
    ensures forall w :: w in rt.wings ==> RouteOk(rt.remotes.Keys, rt.wings[w])
    ensures rt.kg.Some? ==> RouteOk(rt.remotes.Keys, rt.kg.value)
    ensures forall w :: w in rt.coordination ==>
              RouteOk(rt.remotes.Keys, rt.coordination[w]) && Canonical(w) && rt.coordination[w].write != ToBoth
  {
    hide RemoteOk, Server, Canonical, DistinctNames, TargetOf;
    forall w | w in rt.wings
      ensures RouteOk(rt.remotes.Keys, rt.wings[w])
    {
      ResolvedIsOk(section.wings[w], rt.remotes.Keys);
    }
    if rt.kg.Some? {
      ResolvedIsOk(section.kg.value, rt.remotes.Keys);
    }
    forall w | w in rt.coordination
      ensures RouteOk(rt.remotes.Keys, rt.coordination[w]) && Canonical(w) && rt.coordination[w].write != ToBoth
    {
      assert CoordinationOk(w, section.coordination[w], rt.remotes.Keys);
      ResolvedIsOk(section.coordination[w], rt.remotes.Keys);
    }
  }

  lemma LoadedDefaultIsOk(space: char -> bool, env: string -> Option<string>, section: Section, rt: Runtime)
    requires Acceptable(space, section) && LoadedFrom(space, env, section, rt)
    ensures rt.defaultRemote.Some? <==> rt.defaultMode != Local
    ensures rt.defaultRemote.Some? ==> rt.defaultRemote.value in rt.remotes
  {
    hide RemoteOk, Server, Canonical, DistinctNames, ResolveRule, CoordinationOk, Resolvable, InferSingle;
    assert DefaultOk(section);
  }

  /** Every accepted configuration is well formed. */
  lemma LoadedIsWellFormed(space: char -> bool, env: string -> Option<string>, section: Section, rt: Runtime)
    requires Acceptable(space, section) && LoadedFrom(space, env, section, rt)
    ensures WellFormed(rt)
  {
    hide Acceptable, LoadedFrom, RouteOk, UrlOk, Canonical;
    LoadedRemotesAreOk(space, env, section, rt);
    LoadedDefaultIsOk(space, env, section, rt);
    LoadedRulesAreOk(space, env, section, rt);
  }

  // ----- resolving routes -----

  const SHARED_AGENT_DIARY_WING := "wing_agents"
  const UNSCOPED_WING := "wing_unscoped"
  const DEFAULT_COORDINATION_WING := "wing_local_tasks"
  const DIARY_ROOM := "diary"
  const DIARY_TOPIC_PREFIX := "diary:"

  datatype Query = Query(wing: Option<string>, room: Option<string>, sourceFile: Option<string>)

  predicate IsDiary(q: Query) {
    || q.wing == Some(SHARED_AGENT_DIARY_WING)
    || q.room == Some(DIARY_ROOM)
    || (q.sourceFile.Some? && DIARY_TOPIC_PREFIX <= q.sourceFile.value)
  }

  function DefaultRule(rt: Runtime): Rule {
    if rt.defaultMode == Local then LOCAL_RULE else Rule(rt.defaultMode, rt.defaultRemote, ToLocal)
  }

  /** `resolve_route`: diary, then the wing's rule, then the project's, then the default. */
  function ResolveRoute(rt: Runtime, project: Option<RuleV1>, q: Query): Rule {
    if IsDiary(q) then LOCAL_RULE
    else if q.wing.Some? && q.wing.value in rt.wings then rt.wings[q.wing.value]
    else
      var own := if project.Some? then ResolveRule(project.value, rt.remotes.Keys) else None;
      if own.Some? then own.value else DefaultRule(rt)
  }

  function ResolveKgRoute(rt: Runtime): Rule {
    if rt.kg.Some? then rt.kg.value else DefaultRule(rt)
  }

  predicate Reserved(wing: string) {
    wing == SHARED_AGENT_DIARY_WING || wing == UNSCOPED_WING || wing == DEFAULT_COORDINATION_WING
  }

  function ResolveCoordinationRoute(space: char -> bool, rt: Runtime, wing: string): Rule {
    var canonical := Normalized(space, wing);
    if canonical.None? || Reserved(canonical.value) then LOCAL_RULE
    else if canonical.value in rt.coordination then rt.coordination[canonical.value]
    else DefaultRule(rt)
  }

  /** Every route of a loaded configuration is well formed, for every query and project override. */
  lemma RoutesAreOk(space: char -> bool, rt: Runtime, project: Option<RuleV1>, q: Query, wing: string)
    requires WellFormed(rt)
    ensures RouteOk(rt.remotes.Keys, ResolveRoute(rt, project, q))
    ensures RouteOk(rt.remotes.Keys, ResolveKgRoute(rt))
    ensures RouteOk(rt.remotes.Keys, ResolveCoordinationRoute(space, rt, wing))
    ensures IsDiary(q) ==> ResolveRoute(rt, project, q) == LOCAL_RULE
  {
    hide Normalized, UrlOk, Canonical;
    if project.Some? {
      ResolvedIsOk(project.value, rt.remotes.Keys);
    }
  }

  /**
   Precedence, route by route. Diary queries are local. Of the others, a wing with a rule is
   routed by that very rule, whatever the project says; without one a project override that
   can be resolved decides, by its own mode, remote and write target; and otherwise the
   default does, which never writes anywhere but locally.
   */
  lemma OverridePrecedence(rt: Runtime, project: Option<RuleV1>, q: Query)
    ensures (q.wing == Some("wing_agents") || q.room == Some("diary")
             || (q.sourceFile.Some? && "diary:" <= q.sourceFile.value)) ==>
              ResolveRoute(rt, project, q) == Rule(Local, None, ToLocal)
    ensures !IsDiary(q) && q.wing.Some? && q.wing.value in rt.wings ==>
              ResolveRoute(rt, project, q) == rt.wings[q.wing.value]
    ensures !IsDiary(q) && (q.wing.None? || q.wing.value !in rt.wings) && project.Some?
            && Resolvable(project.value, rt.remotes.Keys) ==>
              RoutedBy(project.value, rt.remotes.Keys, ResolveRoute(rt, project, q))
    ensures !IsDiary(q) && (q.wing.None? || q.wing.value !in rt.wings)
            && (project.None? || !Resolvable(project.value, rt.remotes.Keys)) ==>
              var route := ResolveRoute(rt, project, q);
              && route.mode == rt.defaultMode && route.write == ToLocal
              && route.remote == if rt.defaultMode == Local then None else rt.defaultRemote
    ensures IsDiary(q) <==>
            || q.wing == Some("wing_agents") || q.room == Some("diary")
            || (q.sourceFile.Some? && "diary:" <= q.sourceFile.value)
  {
    if project.Some? {
      ResolvedAsWritten(project.value, rt.remotes.Keys);
    }
  }

  /** The graph route: its own rule, or else the default. */
  lemma KgPrecedence(rt: Runtime)
    ensures rt.kg.Some? ==> ResolveKgRoute(rt) == rt.kg.value
    ensures rt.kg.None? ==>
              && ResolveKgRoute(rt).mode == rt.defaultMode && ResolveKgRoute(rt).write == ToLocal
              && ResolveKgRoute(rt).remote == if rt.defaultMode == Local then None else rt.defaultRemote
  {
  }

  /** A route that says what a rule says: its mode, its remote or the only one, its write target if it may have one. */
  ghost predicate RoutedBy(rule: RuleV1, remotes: set<string>, route: Rule) {
    && route.mode == rule.mode
    && (rule.mode == Local ==> route.remote.None?)
    && (rule.mode != Local && rule.remote.Some? ==> route.remote == rule.remote && rule.remote.value in remotes)
    && (rule.mode != Local && rule.remote.None? ==> route.remote.Some? && remotes == {route.remote.value})
    && route.write == if rule.mode == Combined && rule.write.Some? then rule.write.value else ToLocal
  }

  /** A rule that can be resolved is routed as it is written, and every other rule is refused. */
  lemma ResolvedAsWritten(rule: RuleV1, remotes: set<string>)
    ensures ResolveRule(rule, remotes).Some? <==> Resolvable(rule, remotes)
    ensures ResolveRule(rule, remotes).Some? ==> RoutedBy(rule, remotes, ResolveRule(rule, remotes).value)
  {
  }

  // ----- what a configuration is refused for -----

  lemma {:induction false} UntilStop(host: string, rest: string, stop: char)
    requires stop !in host && (rest == [] || rest[0] == stop)
    ensures Until(host + rest, stop) == host
  {
    if host == [] {
      assert host + rest == rest;
    } else {
      assert (host + rest)[1..] == host[1..] + rest;
      UntilStop(host[1..], rest, stop);
    }
  }

  /** Plain HTTP is for this host only: by name, or by one of its two addresses. */
  lemma {:induction false} PlainHttpIsLoopback(host: string, port: string, path: string)
    requires '/' !in host && ':' !in host && host != [] && host[0] != '['
    requires '/' !in port && (port == [] || port[0] == ':')
    requires path == [] || path[0] == '/'
    ensures UrlOk("http://" + (host + port + path)) <==> host == "localhost" || host == "127.0.0.1"
  {
    var rest := host + port + path;
    var url := "http://" + rest;
    assert url[7..] == rest && url[4] == ':';
    UntilStop(host + port, path, '/');
    UntilStop(host, port, ':');
    assert (host + port)[0] == host[0];
    assert "::1"[0] == ':' && '1' in "::1" && ':' in "::1";
  }

  lemma {:induction false} PlainHttpInBrackets(host: string, port: string, path: string)
    requires '/' !in host && ']' !in host && '/' !in port && (path == [] || path[0] == '/')
    ensures UrlOk("http://[" + (host + ("]" + port) + path)) <==> host == "localhost" || host == "127.0.0.1" || host == "::1"
  {
    var authority := "[" + (host + ("]" + port));
    var url := "http://[" + (host + ("]" + port) + path);
    assert url == "http://" + (authority + path);
    assert url[7..] == authority + path && url[4] == ':';
    UntilStop(authority, path, '/');
    assert authority[1..] == host + ("]" + port);
    UntilStop(host, "]" + port, ']');
  }

  /** Over TLS every host will do, and other schemes never do. */
  lemma OtherSchemes(url: string)
    ensures "https://" <= url ==> UrlOk(url)
    ensures !("https://" <= url) && !("http://" <= url) ==> !UrlOk(url)
  {
  }

  /** A token from the environment wins when it is there and not empty. */
  lemma TokenPrecedence(space: char -> bool, env: string -> Option<string>, raw: RemoteV1)
    ensures var server := Server(space, env, raw);
            var found := if raw.tokenEnv.Some? then env(raw.tokenEnv.value) else None;
            && (found.Some? && found.value != "" ==> server.token == found)
            && (found.None? || found.value == "" ==> server.token == raw.token)
            && server.name == raw.name && server.oauthClientId == raw.oauthClientId
            && (raw.timeoutMs.Some? ==> server.timeoutMs == raw.timeoutMs.value)
            && (raw.timeoutMs.None? ==> server.timeoutMs == 5000)
  {
  }

  /** A remote is refused for an empty name, for its address, or for an empty OAuth client; a coordination rule for its wing, its remote, or writing to both. */
  lemma RefusedExactly(space: char -> bool, raw: RemoteV1, wing: string, rule: RuleV1, remotes: set<string>)
    ensures RemoteOk(space, raw) <==>
            && raw.name != "" && UrlOk(Trim(space, raw.url))
            && (raw.oauthClientId.None? || !Blank(space, raw.oauthClientId.value))
    ensures CoordinationOk(wing, rule, remotes) <==>
            && "wing_" <= wing && ValidId(wing) && (forall i :: 0 <= i < |wing| ==> !('A' <= wing[i] <= 'Z'))
            && (rule.mode == Local
                || (rule.remote.Some? && rule.remote.value in remotes)
                || (rule.remote.None? && |remotes| == 1))
            && (rule.mode == Combined ==> rule.write != Some(ToBoth))
  {
    if raw.oauthClientId.Some? {
      TrimBlank(space, raw.oauthClientId.value);
    }
    hide UrlOk, Trim;
  }

  /** What mining asks of a route before it goes to a remote. */
  predicate MinesRemotely(rule: Rule) {
    rule.mode == Remote || (rule.mode == Combined && (rule.write == ToRemote || rule.write == ToBoth))
  }

  /** The remote that remote mining looks up. */
  function MineRemoteName(rule: Rule): string {
    if rule.remote.Some? then rule.remote.value else "remote"
  }

  /** Remote mining never meets a missing remote: its error branch cannot be reached from a loaded configuration. */
  lemma MineRemoteIsConfigured(rt: Runtime, project: Option<RuleV1>, q: Query)
    requires WellFormed(rt)
    requires var route := ResolveRoute(rt, project, q);
             route.mode == Remote || (route.mode == Combined && route.write != ToLocal)
    ensures var route := ResolveRoute(rt, project, q);
            && MinesRemotely(route)
            && route.remote == Some(MineRemoteName(route))
            && MineRemoteName(route) in rt.remotes
            && rt.remotes[MineRemoteName(route)].name == MineRemoteName(route)
  {
    RoutesAreOk(c => false, rt, project, q, "");
  }

  /** And nothing else is mined remotely. */
  lemma MinesLocally(rt: Runtime, project: Option<RuleV1>, q: Query)
    requires WellFormed(rt) && ResolveRoute(rt, project, q).mode != Remote && ResolveRoute(rt, project, q).write == ToLocal
    ensures !MinesRemotely(ResolveRoute(rt, project, q))
  {
  }

  // ----- coordination routing does not depend on spelling -----

  /** Two spellings of one wing route alike, and any wing routes like its canonical form. */
  lemma SpellingDoesNotMatter(space: char -> bool, rt: Runtime, raw: string, other: string)
    requires SpaceOk(space) && Normalized(space, raw) == Normalized(space, other)
    ensures ResolveCoordinationRoute(space, rt, raw) == ResolveCoordinationRoute(space, rt, other)
    ensures Normalized(space, raw).Some? ==>
              ResolveCoordinationRoute(space, rt, raw) == ResolveCoordinationRoute(space, rt, Normalized(space, raw).value)
  {
    hide Normalized;
    if Normalized(space, raw).Some? {
      NormalizedIsIdempotent(space, raw);
    }
  }

  /**
   The routing gate, case by case: blank names and every spelling of a reserved wing stay
   local, every other configured key gets its own rule under any spelling, the rest get the
   default, and nothing ever writes to both.
   */
  lemma CoordinationGate(space: char -> bool, rt: Runtime, raw: string)
    requires SpaceOk(space) && WellFormed(rt)
    ensures Blank(space, raw) ==> ResolveCoordinationRoute(space, rt, raw) == Rule(Local, None, ToLocal)
    ensures !Blank(space, raw) ==> Normalized(space, raw).Some?
    ensures forall key :: Reserved(key) <==> key == "wing_agents" || key == "wing_unscoped" || key == "wing_local_tasks"
    ensures !Blank(space, raw) && Reserved(Normalized(space, raw).value) ==>
              ResolveCoordinationRoute(space, rt, raw) == Rule(Local, None, ToLocal)
    ensures !Blank(space, raw) && !Reserved(Normalized(space, raw).value) && Normalized(space, raw).value !in rt.coordination ==>
              var route := ResolveCoordinationRoute(space, rt, raw);
              && route.mode == rt.defaultMode && route.write == ToLocal && route.remote == rt.defaultRemote
    ensures ResolveCoordinationRoute(space, rt, raw).write != ToBoth
    ensures forall key :: key in rt.coordination && !Reserved(key) && Normalized(space, raw) == Some(key) ==>
              ResolveCoordinationRoute(space, rt, raw) == rt.coordination[key]
    ensures forall key :: key in rt.coordination && !Reserved(key) ==>
              ResolveCoordinationRoute(space, rt, key) == rt.coordination[key]
  {
    NormalizedResult(space, raw);
    hide Normalized, UrlOk, Canonical;
    forall key | key in rt.coordination && !Reserved(key)
      ensures ResolveCoordinationRoute(space, rt, key) == rt.coordination[key]
    {
      CanonicalIsFixed(space, key);
    }
  }
}
