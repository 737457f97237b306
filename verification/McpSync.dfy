/**
 Mirroring a server's tool list into a live registry (src/mcp.rs, src/tool/registry.rs): the
 three-way reconcile between what the server lists, what the provider remembers having
 registered, and what the registry holds now.
 */
module McpSync {
  import opened Common
  import Names

  /** JSON values are only compared, so each stands for itself by its text. */
  type Json = string

  datatype Policy = Error | Lenient

  datatype Schema = Schema(tool: string, description: string, input: Json)

  datatype McpTool = McpTool(
    serverName: string,
    exposedName: string,
    description: string,
    input: Json,
    output: Option<Json>,
    readOnly: bool,
    destructive: bool,
    timeout: nat,
    policy: Policy)

  function SchemaOf(t: McpTool): Schema {
    Schema(t.exposedName, t.description, t.input)
  }

  /** The survivor comparison; the shared client handle is the one field it leaves out. */
  predicate Matches(a: McpTool, b: McpTool) {
    && a.serverName == b.serverName
    && a.exposedName == b.exposedName
    && a.description == b.description
    && a.input == b.input
    && a.output == b.output
    && a.readOnly == b.readOnly
    && a.destructive == b.destructive
    && a.timeout == b.timeout
    && a.policy == b.policy
  }

  // ---------------------------------------------------------------- the registry

  /** What a registry entry is: one of this provider's adapters, or any other tool with its schema. */
  datatype Handle = Ours(tool: McpTool) | Foreign(schema: Schema)

  function HandleSchema(h: Handle): Schema {
    match h
    case Ours(t) => SchemaOf(t)
    case Foreign(s) => s
  }

  datatype Registry = Registry(tools: map<string, Handle>, order: seq<string>, version: nat)

  function WithEntry(r: Registry, name: string, h: Handle): Registry {
    Registry(r.tools[name := h], if name in r.tools then r.order else r.order + [name], r.version + 1)
  }

  function Without(order: seq<string>, dropped: set<string>): seq<string> {
    if order == [] then []
    else (if order[0] in dropped then [] else [order[0]]) + Without(order[1..], dropped)
  }

  function WithoutEntry(r: Registry, name: string): Registry {
    if name in r.tools then Registry(r.tools - {name}, Without(r.order, {name}), r.version + 1) else r
  }

  predicate RegistrationMatches(r: Registry, name: string, schema: Schema) {
    name in r.tools && HandleSchema(r.tools[name]) == schema
  }

  // ---------------------------------------------------------------- discovery

  datatype ServerTool = ServerTool(
    name: string,
    description: Option<string>,
    input: Json,
    output: Option<Json>,
    outputCompiles: bool,
    readOnlyHint: Option<bool>,
    destructiveHint: Option<bool>)

  datatype Settings = Settings(prefix: Option<string>, timeout: nat, policy: Policy)

  function GetOr<T>(o: Option<T>, default: T): T {
    if o.Some? then o.value else default
  }

  function Bridge(s: ServerTool, settings: Settings): Option<McpTool> {
    if s.name == [] then None
    else Some(McpTool(
      s.name,
      if settings.prefix.Some? then settings.prefix.value + "__" + s.name else s.name,
      GetOr(s.description, ""),
      s.input,
      if s.outputCompiles then s.output else None,
      GetOr(s.readOnlyHint, false),
      GetOr(s.destructiveHint, true),
      settings.timeout,
      settings.policy))
  }

  function NamesOf(tools: seq<McpTool>): set<string> {
    set t | t in tools :: t.exposedName
  }

  ghost predicate DistinctNames(tools: seq<McpTool>) {
    forall i, j :: 0 <= i < j < |tools| ==> tools[i].exposedName != tools[j].exposedName
  }

  /** The adapters of a listing, the first of each name only. */
  function Discover(listing: seq<ServerTool>, settings: Settings): seq<McpTool> {
    if listing == [] then []
    else
      var before := Discover(listing[..|listing| - 1], settings);
      match Bridge(listing[|listing| - 1], settings)
      case None => before
      case Some(t) => if t.exposedName in NamesOf(before) then before else before + [t]
  }

  lemma {:induction false} DiscoverIsDistinct(listing: seq<ServerTool>, settings: Settings)
    ensures DistinctNames(Discover(listing, settings))
    decreases |listing|
  {
    if listing != [] {
      var before := Discover(listing[..|listing| - 1], settings);
      DiscoverIsDistinct(listing[..|listing| - 1], settings);
      forall i | 0 <= i < |before|
        ensures before[i].exposedName in NamesOf(before)
      {
        assert before[i] in before;
      }
    }
  }

  lemma UnseenSnoc(listing: seq<ServerTool>, settings: Settings, name: string)
    requires listing != []
    ensures var n := |listing| - 1;
      Unseen(listing, settings, name) <==> Unseen(listing[..n], settings, name) && !Carries(listing[n], settings, name)
  {
    var n := |listing| - 1;
    assert forall i :: 0 <= i < n ==> listing[i] == listing[..n][i];
  }

  lemma {:induction false} DiscoversEveryName(listing: seq<ServerTool>, settings: Settings, name: string)
    ensures name in NamesOf(Discover(listing, settings)) <==> !Unseen(listing, settings, name)
    decreases |listing|
  {
    if listing != [] {
      var init, last := listing[..|listing| - 1], Bridge(listing[|listing| - 1], settings);
      DiscoversEveryName(init, settings, name);
      UnseenSnoc(listing, settings, name);
      if last.Some? && last.value.exposedName !in NamesOf(Discover(init, settings)) {
        NamesSnoc(Discover(listing, settings));
        assert Discover(listing, settings)[..|Discover(init, settings)|] == Discover(init, settings);
      }
    }
  }

  /** Some entry of the listing bridges to the tool, and no entry before it carries its name. */
  ghost predicate FirstOfItsName(listing: seq<ServerTool>, settings: Settings, t: McpTool) {
    exists i :: 0 <= i < |listing| && Bridge(listing[i], settings) == Some(t)
                && Unseen(listing[..i], settings, t.exposedName)
  }

  lemma FirstOfItsNameSnoc(listing: seq<ServerTool>, settings: Settings, t: McpTool)
    requires listing != []
    ensures var n := |listing| - 1;
      FirstOfItsName(listing, settings, t) <==>
        FirstOfItsName(listing[..n], settings, t)
        || (Bridge(listing[n], settings) == Some(t) && Unseen(listing[..n], settings, t.exposedName))
  {
    var n := |listing| - 1;
    assert forall i :: 0 <= i < n ==> listing[i] == listing[..n][i] && listing[..i] == listing[..n][..i];
  }

  /** A tool is discovered exactly when it is the first of the listing to carry its name. */
  lemma {:induction false} DiscoverKeepsTheFirst(listing: seq<ServerTool>, settings: Settings, t: McpTool)
    ensures t in Discover(listing, settings) <==> FirstOfItsName(listing, settings, t)
    decreases |listing|
  {
    if listing != [] {
      var init := listing[..|listing| - 1];
      DiscoverKeepsTheFirst(init, settings, t);
      DiscoversEveryName(init, settings, t.exposedName);
      FirstOfItsNameSnoc(listing, settings, t);
    }
  }

  /** Which entries of a listing are adapted, and into what; the hints an entry leaves out mean a tool that destroys. */
  lemma Bridged(s: ServerTool, settings: Settings)
    ensures s.name == "" <==> Bridge(s, settings) == None
    ensures s.name != "" ==> var t := Bridge(s, settings).value;
      && t.serverName == s.name && t.input == s.input
      && t.exposedName == (if settings.prefix == None then "" else settings.prefix.value + "__") + s.name
      && t.description == (if s.description == None then "" else s.description.value)
      && t.output == (if s.outputCompiles then s.output else None)
      && t.readOnly == (s.readOnlyHint == Some(true)) && t.destructive == (s.destructiveHint != Some(false))
      && t.timeout == settings.timeout && t.policy == settings.policy
  {
    if settings.prefix.Some? {
      assert settings.prefix.value + "__" + s.name == (settings.prefix.value + "__") + s.name;
    }
  }

  /** A prefix hides no tool: two entries are exposed under one name only if the server gave them one name. */
  lemma PrefixIsInjective(a: ServerTool, b: ServerTool, settings: Settings)
    requires a.name != "" && b.name != ""
    ensures Bridge(a, settings).value.exposedName == Bridge(b, settings).value.exposedName <==> a.name == b.name
  {
    if settings.prefix.Some? {
      var front := settings.prefix.value + "__";
      assert (front + a.name)[|front|..] == a.name && (front + b.name)[|front|..] == b.name;
    }
  }

  predicate Carries(s: ServerTool, settings: Settings, name: string) {
    var t := Bridge(s, settings);
    t.Some? && t.value.exposedName == name
  }

  predicate Unseen(listing: seq<ServerTool>, settings: Settings, name: string) {
    forall i :: 0 <= i < |listing| ==> !Carries(listing[i], settings, name)
  }

  // ---------------------------------------------------------------- the provider

  datatype Provider = Provider(settings: Settings, tools: seq<McpTool>, registered: map<string, McpTool>)

  datatype World = World(registry: Registry, provider: Provider)

  /** The tool of a list under a name: the last one, and the only one when names are distinct. */
  function Named(tools: seq<McpTool>, name: string): McpTool
    requires name in NamesOf(tools)
  {
    var t := tools[|tools| - 1];
    if t.exposedName == name then t else Named(tools[..|tools| - 1], name)
  }

  function RegisterAll(w: World, tools: seq<McpTool>): World {
    if tools == [] then w
    else
      var v := RegisterAll(w, tools[..|tools| - 1]);
      var t := tools[|tools| - 1];
      World(WithEntry(v.registry, t.exposedName, Ours(t)),
            v.provider.(registered := v.provider.registered[t.exposedName := t]))
  }

  /** Registering a snapshot puts each of its tools under its name and in the baseline, and touches no other name. */
  lemma {:induction false} RegisterAllAt(w: World, tools: seq<McpTool>, name: string)
    requires DistinctNames(tools)
    ensures var v := RegisterAll(w, tools);
      if name in NamesOf(tools) then
        Get(v.registry, name) == Some(Ours(Named(tools, name)))
        && name in v.provider.registered && v.provider.registered[name] == Named(tools, name)
      else
        Get(v.registry, name) == Get(w.registry, name)
        && (name in v.provider.registered <==> name in w.provider.registered)
        && (name in w.provider.registered ==> v.provider.registered[name] == w.provider.registered[name])
    decreases |tools|
  {
    if tools != [] {
      NamesSnoc(tools);
      RegisterAllAt(w, tools[..|tools| - 1], name);
    }
  }

  // ---------------------------------------------------------------- the sync

  /** The target still holds the registration the baseline remembers under this name. */
  predicate Held(r: Registry, base: map<string, McpTool>, name: string) {
    name in base && RegistrationMatches(r, name, SchemaOf(base[name]))
  }

  /** The baseline knows the name, but the target holds something else under it. */
  predicate ForeignHeld(r: Registry, base: map<string, McpTool>, name: string) {
    name in base && name in r.tools && !Held(r, base, name)
  }

  function Dropped(r: Registry, base: map<string, McpTool>, listed: set<string>): set<string> {
    set n | n in base && n !in listed && Held(r, base, n)
  }

  function Prune(r: Registry, dropped: set<string>): Registry {
    Registry(r.tools - dropped, Without(r.order, dropped), r.version + |dropped|)
  }

  /** What the sync does with one discovered tool: update in place, leave alone, or register. */
  predicate Registers(r: Registry, base: map<string, McpTool>, t: McpTool) {
    var name := t.exposedName;
    if Held(r, base, name) then !Matches(base[name], t) else !ForeignHeld(r, base, name)
  }

  function Land(r: Registry, base: map<string, McpTool>, t: McpTool): Registry {
    if Registers(r, base, t) then WithEntry(r, t.exposedName, Ours(t)) else r
  }

  function LandAll(r: Registry, base: map<string, McpTool>, tools: seq<McpTool>): Registry {
    if tools == [] then r else Land(LandAll(r, base, tools[..|tools| - 1]), base, tools[|tools| - 1])
  }

  function Added(r: Registry, base: map<string, McpTool>, tools: seq<McpTool>): seq<string> {
    if tools == [] then []
    else
      var name := tools[|tools| - 1].exposedName;
      Added(r, base, tools[..|tools| - 1])
      + if !Held(r, base, name) && !ForeignHeld(r, base, name) then [name] else []
  }

  function Untouched(r: Registry, base: map<string, McpTool>, tools: seq<McpTool>): seq<string> {
    if tools == [] then []
    else
      var name := tools[|tools| - 1].exposedName;
      Untouched(r, base, tools[..|tools| - 1]) + if Held(r, base, name) then [name] else []
  }

  function Baseline(tools: seq<McpTool>): map<string, McpTool> {
    map n | n in NamesOf(tools) :: Named(tools, n)
  }

  function Sync(w: World, tools: seq<McpTool>): World {
    var base := w.provider.registered;
    World(LandAll(Prune(w.registry, Dropped(w.registry, base, NamesOf(tools))), base, tools),
          w.provider.(tools := tools, registered := Baseline(tools)))
  }

  // ---------------------------------------------------------------- what a sync leaves behind

  lemma NamesSnoc(tools: seq<McpTool>)
    requires tools != []
    ensures NamesOf(tools) == NamesOf(tools[..|tools| - 1]) + {tools[|tools| - 1].exposedName}
  {
    var init, t := tools[..|tools| - 1], tools[|tools| - 1];
    assert tools == init + [t];
  }

  lemma {:induction false} NamedIsIn(tools: seq<McpTool>, name: string)
    requires name in NamesOf(tools)
    ensures Named(tools, name) in tools && Named(tools, name).exposedName == name
    decreases |tools|
  {
    NamesSnoc(tools);
    if tools[|tools| - 1].exposedName != name {
      NamedIsIn(tools[..|tools| - 1], name);
    }
  }

  lemma LastIsNew(tools: seq<McpTool>)
    requires tools != [] && DistinctNames(tools)
    ensures tools[|tools| - 1].exposedName !in NamesOf(tools[..|tools| - 1])
  {
  }

  /** The registry under one name after the discovered tools have landed. */
  function Landed(r: Registry, base: map<string, McpTool>, tools: seq<McpTool>, name: string): Option<Handle> {
    if name in NamesOf(tools) && Registers(r, base, Named(tools, name)) then Some(Ours(Named(tools, name)))
    else if name in r.tools then Some(r.tools[name])
    else None
  }

  function Get(r: Registry, name: string): Option<Handle> {
    if name in r.tools then Some(r.tools[name]) else None
  }

  lemma {:induction false} LandAllAt(r: Registry, base: map<string, McpTool>, tools: seq<McpTool>, name: string)
    requires DistinctNames(tools)
    ensures Get(LandAll(r, base, tools), name) == Landed(r, base, tools, name)
    decreases |tools|
  {
    if tools != [] {
      var init, t := tools[..|tools| - 1], tools[|tools| - 1];
      NamesSnoc(tools);
      LastIsNew(tools);
      LandAllAt(r, base, init, name);
      LandAllAt(r, base, init, t.exposedName);
    }
  }

  /** The whole effect of a sync on one name of the registry. */
  lemma SyncAt(w: World, tools: seq<McpTool>, name: string)
    requires DistinctNames(tools)
    ensures var base := w.provider.registered;
      Get(Sync(w, tools).registry, name) ==
        if name in NamesOf(tools) then
          if ForeignHeld(w.registry, base, name)
            || (Held(w.registry, base, name) && Matches(base[name], Named(tools, name)))
          then Some(w.registry.tools[name]) else Some(Ours(Named(tools, name)))
        else if Held(w.registry, base, name) then None
        else Get(w.registry, name)
  {
    var base := w.provider.registered;
    var dropped := Dropped(w.registry, base, NamesOf(tools));
    LandAllAt(Prune(w.registry, dropped), base, tools, name);
    if name in NamesOf(tools) {
      NamedIsIn(tools, name);
    }
  }

  /**
   After a sync a discovered name carries the discovered schema, unless the baseline knew the
   name and the target held something else under it: then that entry is unchanged.
   */
  lemma SyncMirrorsTheServer(w: World, tools: seq<McpTool>, name: string)
    requires DistinctNames(tools) && name in NamesOf(tools)
    ensures name in Sync(w, tools).registry.tools
    ensures !ForeignHeld(w.registry, w.provider.registered, name) ==>
      RegistrationMatches(Sync(w, tools).registry, name, SchemaOf(Named(tools, name)))
    ensures ForeignHeld(w.registry, w.provider.registered, name) ==>
      Sync(w, tools).registry.tools[name] == w.registry.tools[name]
  {
    SyncAt(w, tools, name);
  }

  /** Names that neither the server lists nor the baseline knows are left exactly as they were. */
  lemma SyncLeavesStrangersAlone(w: World, tools: seq<McpTool>, name: string)
    requires DistinctNames(tools) && name !in NamesOf(tools) && name !in w.provider.registered
    ensures Get(Sync(w, tools).registry, name) == Get(w.registry, name)
  {
    SyncAt(w, tools, name);
  }

  /** An entry advertises what a tool does: the same name, description and input, whoever wrote it. */
  predicate Advertises(h: Handle, t: McpTool) {
    match h
    case Foreign(s) => s.tool == t.exposedName && s.description == t.description && s.input == t.input
    case Ours(x) => x.exposedName == t.exposedName && x.description == t.description && x.input == t.input
  }

  predicate Lists(tools: seq<McpTool>, name: string) {
    exists t :: t in tools && t.exposedName == name
  }

  /** The baseline knows the name, and the entry under it advertises what the baseline remembers. */
  predicate Remembered(entries: map<string, Handle>, base: map<string, McpTool>, name: string) {
    name in base && name in entries && Advertises(entries[name], base[name])
  }

  /**
   What a sync makes of the entries. A listed tool is registered unless the baseline knows its name and
   either another entry stands there or the entry and the tool are unchanged; an unlisted name loses its
   entry if that is the remembered one.
   */
  ghost predicate Reconciled(before: map<string, Handle>, base: map<string, McpTool>, tools: seq<McpTool>,
                             after: map<string, Handle>)
  {
    && (forall t :: t in tools ==>
          t.exposedName in after
          && after[t.exposedName] ==
            if t.exposedName in base && t.exposedName in before
               && (Remembered(before, base, t.exposedName) ==> base[t.exposedName] == t)
            then before[t.exposedName] else Ours(t))
    && (forall n :: n in after && !Lists(tools, n) ==> n in before && after[n] == before[n])
    && (forall n :: n in before && !Lists(tools, n) ==> (n in after <==> !Remembered(before, base, n)))
  }

  lemma HeldIsRemembered(r: Registry, base: map<string, McpTool>, name: string)
    ensures Held(r, base, name) <==> Remembered(r.tools, base, name)
    ensures ForeignHeld(r, base, name) <==> name in base && name in r.tools && !Remembered(r.tools, base, name)
  {
  }

  lemma SyncReconciles(w: World, tools: seq<McpTool>)
    requires DistinctNames(tools)
    ensures Reconciled(w.registry.tools, w.provider.registered, tools, Sync(w, tools).registry.tools)
  {
    var base, after := w.provider.registered, Sync(w, tools).registry.tools;
    forall n
      ensures Get(Sync(w, tools).registry, n) ==
        if n in NamesOf(tools) then
          if n in base && n in w.registry.tools
             && (Remembered(w.registry.tools, base, n) ==> base[n] == Named(tools, n))
          then Some(w.registry.tools[n]) else Some(Ours(Named(tools, n)))
        else if Remembered(w.registry.tools, base, n) then None
        else Get(w.registry, n)
      ensures n in NamesOf(tools) <==> Lists(tools, n)
    {
      SyncAt(w, tools, n);
      HeldIsRemembered(w.registry, base, n);
    }
    forall t | t in tools
      ensures t.exposedName in NamesOf(tools) && Named(tools, t.exposedName) == t
    {
      NamedOfDistinct(tools, t);
    }
    assert forall n :: n in after <==> Get(Sync(w, tools).registry, n).Some?;
  }

  /**
   A foreign entry is not always left alone. Under a discovered name it survives the sync if and
   only if the baseline knows the name and either the entry's schema differs from what the baseline
   remembers or the server's tool is unchanged from it; under any other name, if and only if the
   baseline does not remember its schema.
   */
  lemma ForeignEntryKeptIff(w: World, tools: seq<McpTool>, name: string, schema: Schema)
    requires DistinctNames(tools)
    requires name in w.registry.tools && w.registry.tools[name] == Foreign(schema)
    ensures var base := w.provider.registered; var after := Sync(w, tools).registry.tools;
      var remembered := name in base
        && schema == Schema(base[name].exposedName, base[name].description, base[name].input);
      name in after && after[name] == Foreign(schema) <==>
        && (forall t :: t in tools && t.exposedName == name ==> name in base && (!remembered || base[name] == t))
        && (remembered ==> exists t :: t in tools && t.exposedName == name)
  {
    SyncReconciles(w, tools);
    if Lists(tools, name) {
      var t :| t in tools && t.exposedName == name;
      forall u | u in tools && u.exposedName == name
        ensures u == t
      {
        NamedOfDistinct(tools, t);
        NamedOfDistinct(tools, u);
      }
    }
  }

  /** The report in the same terms: what was missing, what was remembered and is listed, what was and is not. */
  ghost predicate Reported(report: Report, before: map<string, Handle>, base: map<string, McpTool>,
                           tools: seq<McpTool>)
  {
    && (forall n :: n in report.added <==> Lists(tools, n) && (n !in base || n !in before))
    && (forall n :: n in report.untouched <==> Lists(tools, n) && Remembered(before, base, n))
    && (forall n :: n in report.removed <==> !Lists(tools, n) && Remembered(before, base, n))
  }

  // ---------------------------------------------------------------- the report

  lemma {:induction false} ReportNames(r: Registry, base: map<string, McpTool>, tools: seq<McpTool>, name: string)
    requires DistinctNames(tools)
    ensures multiset(Added(r, base, tools))[name] ==
      if name in NamesOf(tools) && !Held(r, base, name) && !ForeignHeld(r, base, name) then 1 else 0
    ensures multiset(Untouched(r, base, tools))[name] == if name in NamesOf(tools) && Held(r, base, name) then 1 else 0
    decreases |tools|
  {
    if tools != [] {
      NamesSnoc(tools);
      LastIsNew(tools);
      ReportNames(r, base, tools[..|tools| - 1], name);
    }
  }

  /** Added, removed and untouched have no name in common, and none lists a name twice. */
  lemma ReportIsDisjoint(w: World, tools: seq<McpTool>, name: string)
    requires DistinctNames(tools)
    ensures var base := w.provider.registered;
      multiset(Added(w.registry, base, tools))[name]
      + multiset(Untouched(w.registry, base, tools))[name]
      + (if name in Dropped(w.registry, base, NamesOf(tools)) then 1 else 0) <= 1
  {
    ReportNames(w.registry, w.provider.registered, tools, name);
  }

  /** How many survivors were updated in place because the server changed their contract. */
  function Refreshed(r: Registry, base: map<string, McpTool>, tools: seq<McpTool>): nat {
    if tools == [] then 0
    else
      var t := tools[|tools| - 1];
      Refreshed(r, base, tools[..|tools| - 1])
      + if Held(r, base, t.exposedName) && !Matches(base[t.exposedName], t) then 1 else 0
  }

  lemma {:induction false} LandAllVersion(r: Registry, base: map<string, McpTool>, tools: seq<McpTool>)
    requires DistinctNames(tools)
    ensures LandAll(r, base, tools).version == r.version + |Added(r, base, tools)| + Refreshed(r, base, tools)
    decreases |tools|
  {
    if tools != [] {
      LastIsNew(tools);
      LandAllVersion(r, base, tools[..|tools| - 1]);
      LandAllAt(r, base, tools[..|tools| - 1], tools[|tools| - 1].exposedName);
    }
  }

  lemma {:induction false} PruneKeepsTheRest(r: Registry, base: map<string, McpTool>, dropped: set<string>,
                                             tools: seq<McpTool>)
    requires dropped !! NamesOf(tools)
    ensures Added(Prune(r, dropped), base, tools) == Added(r, base, tools)
    ensures Untouched(Prune(r, dropped), base, tools) == Untouched(r, base, tools)
    ensures Refreshed(Prune(r, dropped), base, tools) == Refreshed(r, base, tools)
    decreases |tools|
  {
    if tools != [] {
      NamesSnoc(tools);
      PruneKeepsTheRest(r, base, dropped, tools[..|tools| - 1]);
    }
  }

  /** The registry's version moves by one per added name, per removed name and per refreshed survivor. */
  lemma SyncVersion(w: World, tools: seq<McpTool>)
    requires DistinctNames(tools)
    ensures var base := w.provider.registered;
      Sync(w, tools).registry.version == w.registry.version
        + |Dropped(w.registry, base, NamesOf(tools))| + |Added(w.registry, base, tools)|
        + Refreshed(w.registry, base, tools)
  {
    var base := w.provider.registered;
    var dropped := Dropped(w.registry, base, NamesOf(tools));
    LandAllVersion(Prune(w.registry, dropped), base, tools);
    PruneKeepsTheRest(w.registry, base, dropped, tools);
  }

  lemma {:induction false} LandAllOrder(r: Registry, base: map<string, McpTool>, tools: seq<McpTool>)
    requires DistinctNames(tools)
    ensures r.order <= LandAll(r, base, tools).order
    decreases |tools|
  {
    if tools != [] {
      LandAllOrder(r, base, tools[..|tools| - 1]);
    }
  }

  /** Survivors keep their registration order; only new names are appended after them. */
  lemma SyncKeepsPositions(w: World, tools: seq<McpTool>)
    requires DistinctNames(tools)
    ensures Without(w.registry.order, Dropped(w.registry, w.provider.registered, NamesOf(tools)))
         <= Sync(w, tools).registry.order
  {
    var base := w.provider.registered;
    LandAllOrder(Prune(w.registry, Dropped(w.registry, base, NamesOf(tools))), base, tools);
  }

  // ---------------------------------------------------------------- syncing twice

  lemma {:induction false} LandAllIdle(r: Registry, base: map<string, McpTool>, tools: seq<McpTool>)
    requires forall t :: t in tools ==> !Registers(r, base, t)
    ensures LandAll(r, base, tools) == r
    decreases |tools|
  {
    if tools != [] {
      var init := tools[..|tools| - 1];
      assert forall t :: t in init ==> t in tools;
      LandAllIdle(r, base, init);
    }
  }

  lemma {:induction false} NothingAdded(r: Registry, base: map<string, McpTool>, tools: seq<McpTool>)
    requires forall t :: t in tools ==> t.exposedName in base && t.exposedName in r.tools
    ensures Added(r, base, tools) == []
    decreases |tools|
  {
    if tools != [] {
      var init := tools[..|tools| - 1];
      assert forall t :: t in init ==> t in tools;
      NothingAdded(r, base, init);
    }
  }

  lemma {:induction false} WithoutNone(order: seq<string>)
    ensures Without(order, {}) == order
  {
    if order != [] {
      WithoutNone(order[1..]);
    }
  }

  lemma {:induction false} NamedOfDistinct(tools: seq<McpTool>, t: McpTool)
    requires DistinctNames(tools) && t in tools
    ensures t.exposedName in NamesOf(tools) && Named(tools, t.exposedName) == t
    decreases |tools|
  {
    NamesSnoc(tools);
    LastIsNew(tools);
    var init, last := tools[..|tools| - 1], tools[|tools| - 1];
    if t != last {
      assert tools == init + [last];
      assert t in init;
      NamedOfDistinct(init, t);
    }
  }

  /** A second sync over the same discovery changes nothing, not even the version, and reports no change. */
  lemma SecondSyncIsIdle(w: World, tools: seq<McpTool>)
    requires DistinctNames(tools)
    ensures var v := Sync(w, tools);
      && Sync(v, tools) == v
      && Added(v.registry, v.provider.registered, tools) == []
      && Dropped(v.registry, v.provider.registered, NamesOf(tools)) == {}
  {
    var v := Sync(w, tools);
    var base := v.provider.registered;
    forall t | t in tools
      ensures t.exposedName in base && t.exposedName in v.registry.tools && !Registers(v.registry, base, t)
    {
      NamedOfDistinct(tools, t);
      SyncMirrorsTheServer(w, tools, t.exposedName);
    }
    var dropped := Dropped(v.registry, base, NamesOf(tools));
    assert dropped == {};
    WithoutNone(v.registry.order);
    assert Prune(v.registry, dropped) == v.registry;
    LandAllIdle(v.registry, base, tools);
    NothingAdded(v.registry, base, tools);
  }

  // ---------------------------------------------------------------- runs

  datatype Action =
    | RegisterInto
    | Refresh(listing: seq<ServerTool>)
    | SyncInto(listing: seq<ServerTool>)
    | FailedListing
    | ForeignRegister(name: string, schema: Schema)
    | ForeignRemove(name: string)
    | SetTimeout(timeout: nat)
    | SetPolicy(policy: Policy)

  function Retimed(tools: seq<McpTool>, timeout: nat): seq<McpTool> {
    seq(|tools|, i requires 0 <= i < |tools| => tools[i].(timeout := timeout))
  }

  function Repoliced(tools: seq<McpTool>, policy: Policy): seq<McpTool> {
    seq(|tools|, i requires 0 <= i < |tools| => tools[i].(policy := policy))
  }

  function Step(w: World, a: Action): World {
    var p := w.provider;
    match a
    case RegisterInto => RegisterAll(w, p.tools)
    case Refresh(listing) => w.(provider := p.(tools := Discover(listing, p.settings)))
    case SyncInto(listing) => Sync(w, Discover(listing, p.settings))
    case FailedListing => w
    case ForeignRegister(name, schema) => w.(registry := WithEntry(w.registry, name, Foreign(schema)))
    case ForeignRemove(name) => w.(registry := WithoutEntry(w.registry, name))
    case SetTimeout(t) => w.(provider := p.(settings := p.settings.(timeout := t), tools := Retimed(p.tools, t)))
    case SetPolicy(x) => w.(provider := p.(settings := p.settings.(policy := x), tools := Repoliced(p.tools, x)))
  }

  function After(w: World, run: seq<Action>): World {
    if run == [] then w else Step(After(w, run[..|run| - 1]), run[|run| - 1])
  }

  /** A target that has not seen the provider yet: nothing in it is the provider's. */
  predicate Start(w: World) {
    w.provider.registered == map[] && forall n :: n in w.registry.tools ==> w.registry.tools[n].Foreign?
  }

  /** Every entry this provider wrote last is in its baseline, tool for tool. */
  ghost predicate BaselineCovers(w: World) {
    forall n :: n in w.registry.tools && w.registry.tools[n].Ours? ==>
      n in w.provider.registered && w.provider.registered[n] == w.registry.tools[n].tool
  }

  /** Every entry of ours is the discovered tool of its name: none is stale in any field. */
  ghost predicate NoneStale(r: Registry, tools: seq<McpTool>) {
    forall n :: n in r.tools && r.tools[n].Ours? ==> n in NamesOf(tools) && r.tools[n].tool == Named(tools, n)
  }

  lemma {:induction false} RegisterAllCovers(w: World, tools: seq<McpTool>)
    requires BaselineCovers(w)
    ensures BaselineCovers(RegisterAll(w, tools))
    decreases |tools|
  {
    if tools != [] {
      RegisterAllCovers(w, tools[..|tools| - 1]);
    }
  }

  lemma SyncCovers(w: World, tools: seq<McpTool>)
    requires BaselineCovers(w) && DistinctNames(tools)
    ensures BaselineCovers(Sync(w, tools)) && NoneStale(Sync(w, tools).registry, tools)
  {
    var v := Sync(w, tools);
    forall n | n in v.registry.tools && v.registry.tools[n].Ours?
      ensures n in v.provider.registered && v.provider.registered[n] == v.registry.tools[n].tool
      ensures n in NamesOf(tools) && v.registry.tools[n].tool == Named(tools, n)
    {
      SyncAt(w, tools, n);
    }
  }

  lemma StepCovers(w: World, a: Action)
    requires BaselineCovers(w)
    ensures BaselineCovers(Step(w, a))
  {
    match a
    case RegisterInto => RegisterAllCovers(w, w.provider.tools);
    case SyncInto(listing) =>
      DiscoverIsDistinct(listing, w.provider.settings);
      SyncCovers(w, Discover(listing, w.provider.settings));
    case _ =>
  }

  /** Over any run of registrations, refreshes, syncs and foreign writes the baseline covers what is ours. */
  lemma {:induction false} BaselineAlwaysCovers(w: World, run: seq<Action>)
    requires Start(w)
    ensures BaselineCovers(After(w, run))
    decreases |run|
  {
    if run != [] {
      BaselineAlwaysCovers(w, run[..|run| - 1]);
      StepCovers(After(w, run[..|run| - 1]), run[|run| - 1]);
    }
  }

  /**
   After a successful sync no entry this provider wrote survives that the server no longer
   lists, whatever refreshes dropped its name from the snapshot before, and none is stale: each is
   the discovered tool itself.
   */
  lemma NoOrphansAfterSync(w: World, run: seq<Action>, listing: seq<ServerTool>)
    requires Start(w)
    ensures NoneStale(After(w, run + [SyncInto(listing)]).registry,
                      Discover(listing, After(w, run).provider.settings))
  {
    var v := After(w, run);
    assert (run + [SyncInto(listing)])[..|run|] == run;
    BaselineAlwaysCovers(w, run);
    DiscoverIsDistinct(listing, v.provider.settings);
    SyncCovers(v, Discover(listing, v.provider.settings));
  }

  // ---------------------------------------------------------------- the imperative registry and provider

  ghost predicate NoRepeats(order: seq<string>) {
    forall i, j :: 0 <= i < j < |order| ==> order[i] != order[j]
  }

  /** The order lists each registered name once. */
  ghost predicate Ordered(r: Registry) {
    && NoRepeats(r.order)
    && forall n :: n in r.order <==> n in r.tools
  }

  lemma {:induction false} WithoutOrdered(order: seq<string>, dropped: set<string>)
    ensures forall n :: n in Without(order, dropped) <==> n in order && n !in dropped
    ensures NoRepeats(order) ==> NoRepeats(Without(order, dropped))
  {
    if order != [] {
      var rest := order[1..];
      WithoutOrdered(rest, dropped);
      assert order == [order[0]] + rest;
      if NoRepeats(order) {
        assert order[0] !in rest;
        assert NoRepeats(rest);
      }
    }
  }

  /** Forgetting one name of an order without repeats closes the gap and moves nothing else. */
  lemma {:induction false} WithoutOne(order: seq<string>, k: nat)
    requires NoRepeats(order) && k < |order|
    ensures Without(order, {order[k]}) == order[..k] + order[k + 1..]
  {
    if k == 0 {
      WithoutAbsent(order[1..], order[0]);
    } else {
      assert order[1..][k - 1] == order[k];
      WithoutOne(order[1..], k - 1);
      assert order[..k] + order[k + 1..] == [order[0]] + (order[1..][..k - 1] + order[1..][k..]);
    }
  }

  lemma {:induction false} WithoutAbsent(order: seq<string>, name: string)
    requires name !in order
    ensures Without(order, {name}) == order
  {
    if order != [] {
      WithoutAbsent(order[1..], name);
    }
  }

  lemma {:induction false} WithoutTwice(order: seq<string>, a: set<string>, b: set<string>)
    ensures Without(Without(order, a), b) == Without(order, a + b)
  {
    if order != [] {
      WithoutTwice(order[1..], a, b);
      var rest := Without(order[1..], a);
      if order[0] in a {
        assert Without(order, a) == rest;
      } else {
        assert ([order[0]] + rest)[1..] == rest;
      }
    }
  }

  lemma {:induction false} WithoutSnoc(order: seq<string>, name: string, dropped: set<string>)
    ensures Without(order + [name], dropped) == Without(order, dropped) + if name in dropped then [] else [name]
  {
    if order == [] {
      assert [name][1..] == [];
    } else {
      assert (order + [name])[1..] == order[1..] + [name];
      WithoutSnoc(order[1..], name, dropped);
    }
  }

  /** The names of a list other than the given one, in order. */
  method Retain(order: seq<string>, name: string) returns (kept: seq<string>)
    ensures kept == Without(order, {name})
  {
    kept := [];
    for i := 0 to |order|
      invariant kept == Without(order[..i], {name})
    {
      assert order[..i + 1] == order[..i] + [order[i]];
      WithoutSnoc(order[..i], order[i], {name});
      if order[i] != name {
        kept := kept + [order[i]];
      }
    }
    assert order[..|order|] == order;
  }

  class ToolRegistry {
    var tools: map<string, Handle>
    var order: seq<string>
    var version: nat

    ghost function View(): Registry
      reads this
    {
      Registry(tools, order, version)
    }

    ghost predicate Valid()
      reads this
    {
      Ordered(View())
    }

    constructor ()
      ensures View() == Registry(map[], [], 0) && Valid()
    {
      tools, order, version := map[], [], 0;
    }

    method Register(name: string, h: Handle)
      requires Valid()
      modifies this
      ensures View() == WithEntry(old(View()), name, h) && Valid()
      ensures tools == old(tools)[name := h] && version == old(version) + 1
      ensures order == old(order) + if name in old(tools) then [] else [name]
    {
      if name !in tools {
        order := order + [name];
      }
      tools := tools[name := h];
      version := version + 1;
    }

    method Remove(name: string)
      requires Valid()
      modifies this
      ensures View() == WithoutEntry(old(View()), name) && Valid()
      ensures tools == old(tools) - {name} && version == old(version) + if name in old(tools) then 1 else 0
      ensures name !in old(tools) ==> order == old(order)
      ensures name in old(tools) ==>
        exists k :: 0 <= k < |old(order)| && old(order)[k] == name && order == old(order)[..k] + old(order)[k + 1..]
    {
      if name in tools {
        ghost var k :| 0 <= k < |order| && order[k] == name;
        WithoutOne(order, k);
        WithoutOrdered(order, {name});
        tools := tools - {name};
        order := Retain(order, name);
        version := version + 1;
      }
    }

    predicate Holds(name: string, schema: Schema)
      reads this
    {
      name in tools && HandleSchema(tools[name]) == schema
    }
  }

  datatype Report = Report(added: seq<string>, removed: seq<string>, untouched: seq<string>)

  /** A report tells, sorted by name, what a sync of the discovered tools does to the world it starts from. */
  ghost predicate Reports(report: Report, w: World, tools: seq<McpTool>) {
    var base := w.provider.registered;
    && report.added == Names.Sort(Added(w.registry, base, tools))
    && report.untouched == Names.Sort(Untouched(w.registry, base, tools))
    && Names.Ascending(report.removed)
    && multiset(report.removed) == multiset(Dropped(w.registry, base, NamesOf(tools)))
  }

  lemma ReportTells(report: Report, w: World, tools: seq<McpTool>)
    requires DistinctNames(tools) && Reports(report, w, tools)
    ensures Reported(report, w.registry.tools, w.provider.registered, tools)
  {
    var base := w.provider.registered;
    Names.SortSorts(Added(w.registry, base, tools));
    Names.SortSorts(Untouched(w.registry, base, tools));
    forall n
      ensures n in report.added <==> Lists(tools, n) && (n !in base || n !in w.registry.tools)
      ensures n in report.untouched <==> Lists(tools, n) && Remembered(w.registry.tools, base, n)
      ensures n in report.removed <==> !Lists(tools, n) && Remembered(w.registry.tools, base, n)
    {
      ReportNames(w.registry, base, tools, n);
      HeldIsRemembered(w.registry, base, n);
      assert n in NamesOf(tools) <==> Lists(tools, n);
      assert n in report.added <==> multiset(report.added)[n] > 0;
      assert n in report.untouched <==> multiset(report.untouched)[n] > 0;
      assert n in report.removed <==> multiset(report.removed)[n] > 0;
    }
  }

  /** One sync has one report: the order in which the baseline map yields its names cannot show. */
  lemma ReportIsDetermined(a: Report, b: Report, w: World, tools: seq<McpTool>)
    requires Reports(a, w, tools) && Reports(b, w, tools)
    ensures a == b
  {
    Names.SortedListIsUnique(a.removed, b.removed);
  }

  lemma PruneOne(r: Registry, dropped: set<string>, name: string)
    requires name in r.tools && name !in dropped
    ensures WithoutEntry(Prune(r, dropped), name) == Prune(r, dropped + {name})
  {
    WithoutTwice(r.order, dropped, {name});
    assert r.tools - dropped - {name} == r.tools - (dropped + {name});
  }

  lemma DropNone(r: Registry, base: map<string, McpTool>, listed: set<string>)
    ensures Dropped(r, base, listed) - base.Keys == {} && Prune(r, {}) == r
  {
    WithoutNone(r.order);
    assert r.tools - {} == r.tools;
  }

  /** Looking at one more baseline name, whichever it is. */
  lemma DropOne(r: Registry, base: map<string, McpTool>, listed: set<string>, todo: set<string>, name: string)
    requires name in todo && todo <= base.Keys
    ensures var dropped := Dropped(r, base, listed);
      var before := Prune(r, dropped - todo);
      && (name in dropped <==> name !in listed && RegistrationMatches(before, name, SchemaOf(base[name])))
      && (if name in dropped
          then WithoutEntry(before, name) == Prune(r, dropped - (todo - {name}))
            && multiset(dropped - (todo - {name})) == multiset(dropped - todo) + multiset{name}
          else dropped - (todo - {name}) == dropped - todo)
  {
    var dropped := Dropped(r, base, listed);
    if name in dropped {
      assert dropped - (todo - {name}) == (dropped - todo) + {name};
      PruneOne(r, dropped - todo, name);
    } else {
      assert dropped - (todo - {name}) == dropped - todo;
    }
  }

  /** Landing the other tools does not change what the sync decides for a name. */
  lemma DecisionStands(r: Registry, base: map<string, McpTool>, dropped: set<string>, tools: seq<McpTool>, name: string)
    requires DistinctNames(tools) && name !in NamesOf(tools) && name !in dropped
    ensures var now := LandAll(Prune(r, dropped), base, tools);
      Get(now, name) == Get(r, name)
      && (Held(now, base, name) <==> Held(r, base, name))
      && (ForeignHeld(now, base, name) <==> ForeignHeld(r, base, name))
  {
    LandAllAt(Prune(r, dropped), base, tools, name);
  }

  lemma DistinctPrefix(tools: seq<McpTool>, i: nat)
    requires DistinctNames(tools) && i < |tools|
    ensures DistinctNames(tools[..i]) && tools[i].exposedName !in NamesOf(tools[..i])
    ensures tools[..i + 1] == tools[..i] + [tools[i]] && tools[..i + 1][..i] == tools[..i]
    ensures NamesOf(tools[..i + 1]) == NamesOf(tools[..i]) + {tools[i].exposedName}
    ensures tools[i].exposedName in NamesOf(tools)
  {
    assert tools[..i + 1] == tools[..i] + [tools[i]];
    assert tools[i] in tools;
  }

  lemma EveryToolIsTheBaseline(base: map<string, McpTool>, tools: seq<McpTool>)
    requires base.Keys <= NamesOf(tools)
    requires forall j :: 0 <= j < |tools| ==>
      tools[j].exposedName in base && base[tools[j].exposedName] == tools[j]
    ensures base == Baseline(tools)
  {
    forall n | n in NamesOf(tools)
      ensures n in base && base[n] == Named(tools, n)
    {
      NamedIsIn(tools, n);
      var j :| 0 <= j < |tools| && tools[j] == Named(tools, n);
    }
  }

  lemma BaselineRemembers(tools: seq<McpTool>)
    requires DistinctNames(tools)
    ensures forall t :: t in tools ==> t.exposedName in Baseline(tools) && Baseline(tools)[t.exposedName] == t
  {
    forall t | t in tools
      ensures t.exposedName in NamesOf(tools) && Named(tools, t.exposedName) == t
    {
      NamedOfDistinct(tools, t);
    }
  }

  class McpToolProvider {
    var settings: Settings
    var tools: seq<McpTool>
    var registered: map<string, McpTool>

    ghost function View(): Provider
      reads this
    {
      Provider(settings, tools, registered)
    }

    constructor Connect(settings: Settings, listing: seq<ServerTool>)
      ensures View() == Provider(settings, Discover(listing, settings), map[])
    {
      this.settings := settings;
      registered := map[];
      tools := [];
      new;
      tools := BridgeToolList(listing, settings);
    }

    static method BridgeToolList(listing: seq<ServerTool>, settings: Settings) returns (out: seq<McpTool>)
      ensures out == Discover(listing, settings)
    {
      out := [];
      var seen: set<string> := {};
      for i := 0 to |listing|
        invariant out == Discover(listing[..i], settings)
        invariant seen == NamesOf(out)
      {
        assert listing[..i + 1][..i] == listing[..i];
        var adapted := Bridge(listing[i], settings);
        if adapted.Some? && adapted.value.exposedName !in seen {
          seen := seen + {adapted.value.exposedName};
          out := out + [adapted.value];
          NamesSnoc(out);
          assert out[..|out| - 1] == Discover(listing[..i], settings);
        }
      }
      assert listing[..|listing|] == listing;
    }

    method SetTimeout(timeout: nat)
      modifies this
      ensures View() == old(View()).(settings := old(settings).(timeout := timeout),
                                     tools := Retimed(old(tools), timeout))
      ensures forall r: Registry :: World(r, View()) == Step(World(r, old(View())), Action.SetTimeout(timeout))
    {
      settings := settings.(timeout := timeout);
      ghost var before := tools;
      for i := 0 to |tools|
        invariant |tools| == |before|
        invariant forall j :: 0 <= j < |tools| ==>
          tools[j] == if j < i then before[j].(timeout := timeout) else before[j]
        invariant settings == old(settings).(timeout := timeout) && registered == old(registered)
      {
        tools := tools[i := tools[i].(timeout := timeout)];
      }
    }

    /** A failed listing leaves the prior snapshot in place. */
    method Refresh(listing: Option<seq<ServerTool>>)
      modifies this`tools
      ensures tools == if listing.None? then old(tools) else Discover(listing.value, settings)
      ensures forall r: Registry ::
        World(r, View())
          == Step(World(r, old(View())), if listing.None? then FailedListing else Action.Refresh(listing.value))
    {
      if listing.Some? {
        tools := BridgeToolList(listing.value, settings);
      }
    }

    method RegisterInto(registry: ToolRegistry)
      requires registry.Valid()
      modifies this`registered, registry
      ensures World(registry.View(), View()) == RegisterAll(old(World(registry.View(), View())), tools)
      ensures World(registry.View(), View()) == Step(old(World(registry.View(), View())), Action.RegisterInto)
      ensures registry.Valid()
    {
      ghost var w := World(registry.View(), View());
      for i := 0 to |tools|
        invariant World(registry.View(), View()) == RegisterAll(w, tools[..i]) && registry.Valid()
        invariant tools == w.provider.tools
      {
        assert tools[..i + 1][..i] == tools[..i];
        registry.Register(tools[i].exposedName, Ours(tools[i]));
        registered := registered[tools[i].exposedName := tools[i]];
      }
      assert tools[..|tools|] == tools;
    }

    /** Drop what the server no longer lists, in whatever order the baseline map yields its names. */
    method RemoveDropped(registry: ToolRegistry, listed: set<string>) returns (removed: seq<string>)
      requires registry.Valid()
      modifies registry
      ensures var dropped := Dropped(old(registry.View()), registered, listed);
        registry.View() == Prune(old(registry.View()), dropped) && multiset(removed) == multiset(dropped)
      ensures registry.Valid()
    {
      ghost var r := registry.View();
      ghost var dropped := Dropped(r, registered, listed);
      removed := [];
      var todo := registered.Keys;
      DropNone(r, registered, listed);
      while todo != {}
        invariant todo <= registered.Keys
        invariant registry.View() == Prune(r, dropped - todo) && registry.Valid()
        invariant multiset(removed) == multiset(dropped - todo)
        decreases todo
      {
        var name :| name in todo;
        DropOne(r, registered, listed, todo, name);
        todo := todo - {name};
        if name !in listed && registry.Holds(name, SchemaOf(registered[name])) {
          registry.Remove(name);
          removed := removed + [name];
        }
      }
      assert dropped - todo == dropped;
    }

    /** Register, refresh or leave alone each discovered tool, in discovery order. */
    method LandDiscovered(registry: ToolRegistry, discovered: seq<McpTool>, ghost r: Registry,
                          ghost dropped: set<string>)
      returns (added: seq<string>, untouched: seq<string>)
      requires registry.Valid() && DistinctNames(discovered)
      requires registry.View() == Prune(r, dropped) && dropped !! NamesOf(discovered)
      modifies registry
      ensures registry.View() == LandAll(Prune(r, dropped), registered, discovered) && registry.Valid()
      ensures added == Added(r, registered, discovered) && untouched == Untouched(r, registered, discovered)
    {
      added, untouched := [], [];
      for i := 0 to |discovered|
        invariant registry.Valid() && registry.View() == LandAll(Prune(r, dropped), registered, discovered[..i])
        invariant added == Added(r, registered, discovered[..i])
        invariant untouched == Untouched(r, registered, discovered[..i])
      {
        var tool := discovered[i];
        var name := tool.exposedName;
        DistinctPrefix(discovered, i);
        DecisionStands(r, registered, dropped, discovered[..i], name);
        var known := name in registered;
        var oursInTarget := known && registry.Holds(name, SchemaOf(registered[name]));
        var changed := known && !Matches(registered[name], tool);
        if known && oursInTarget {
          if changed {
            registry.Register(name, Ours(tool));
          }
          untouched := untouched + [name];
        } else if known && name in registry.tools {
          // held by something else: left alone
        } else {
          registry.Register(name, Ours(tool));
          added := added + [name];
        }
      }
      assert discovered[..|discovered|] == discovered;
    }

    /** Forget the unlisted names and remember every discovered tool. */
    method Rebaseline(listed: set<string>)
      requires listed == NamesOf(tools) && DistinctNames(tools)
      modifies this`registered
      ensures registered == Baseline(tools)
    {
      registered := map n | n in registered && n in listed :: registered[n];
      for i := 0 to |tools|
        invariant registered.Keys <= NamesOf(tools)
        invariant forall j :: 0 <= j < i ==>
          tools[j].exposedName in registered && registered[tools[j].exposedName] == tools[j]
      {
        DistinctPrefix(tools, i);
        registered := registered[tools[i].exposedName := tools[i]];
      }
      EveryToolIsTheBaseline(registered, tools);
    }

    method SyncInto(registry: ToolRegistry, listing: Option<seq<ServerTool>>) returns (report: Option<Report>)
      requires registry.Valid()
      modifies this`tools, this`registered, registry
      ensures registry.Valid()
      ensures listing.None? ==> report.None? && registry.View() == old(registry.View()) && View() == old(View())
      ensures listing.Some? ==>
        && report.Some?
        && World(registry.View(), View())
             == Sync(old(World(registry.View(), View())), Discover(listing.value, settings))
        && Reports(report.value, old(World(registry.View(), View())), Discover(listing.value, settings))
      ensures World(registry.View(), View())
        == Step(old(World(registry.View(), View())),
                if listing.None? then FailedListing else Action.SyncInto(listing.value))
      ensures listing.Some? ==>
        && Reconciled(old(registry.tools), old(registered), tools, registry.tools)
        && Reported(report.value, old(registry.tools), old(registered), tools)
        && registered.Keys == (set t | t in tools :: t.exposedName)
        && forall t :: t in tools ==> registered[t.exposedName] == t
    {
      if listing.None? {
        return None;
      }
      var discovered := BridgeToolList(listing.value, settings);
      DiscoverIsDistinct(listing.value, settings);
      SyncReconciles(World(registry.View(), View()), discovered);
      ghost var w := World(registry.View(), View());
      var changes := Reconcile(registry, discovered);
      ReportTells(changes, w, discovered);
      BaselineRemembers(discovered);
      return Some(changes);
    }

    method Reconcile(registry: ToolRegistry, discovered: seq<McpTool>) returns (report: Report)
      requires registry.Valid() && DistinctNames(discovered)
      modifies this`tools, this`registered, registry
      ensures registry.Valid()
      ensures World(registry.View(), View()) == Sync(old(World(registry.View(), View())), discovered)
      ensures Reports(report, old(World(registry.View(), View())), discovered)
    {
      var newNames := set t | t in discovered :: t.exposedName;
      ghost var r := registry.View();
      ghost var dropped := Dropped(r, registered, newNames);
      var removed := RemoveDropped(registry, newNames);
      var added, untouched := LandDiscovered(registry, discovered, r, dropped);
      tools := discovered;
      Rebaseline(newNames);
      Names.SortSorts(removed);
      return Report(Names.Sort(added), Names.Sort(removed), Names.Sort(untouched));
    }
  }
}
