/**
 A sync among other writers (src/mcp.rs:914-977). Every call of a running sync on the shared
 registry takes its lock on its own, so between any two of them others may register and remove.
 */
module McpInterleaved {
  import opened Common
  import opened McpSync

  /**
   Where a running sync is between two of its calls: `Matched` and `Asked` hold the answer of
   `registration_matches`, `Absent` that of `contains`.
   */
  datatype Point =
    | Dropping(left: set<string>)
    | Matched(left: set<string>, name: string, held: bool)
    | Landing(next: nat)
    | Asked(next: nat, held: bool)
    | Absent(next: nat)
    | Done

  datatype Running = Running(registry: Registry, base: map<string, McpTool>, found: seq<McpTool>, point: Point)

  /** One call of the sync (the map yields its baseline names in any order), or a call of somebody else. */
  datatype Move = Advance(name: string) | Write(name: string, schema: Schema) | Erase(name: string)

  function Begin(registry: Registry, base: map<string, McpTool>, found: seq<McpTool>): Running {
    Running(registry, base, found, Dropping(base.Keys))
  }

  /** The names still to be looked at are the baseline's, and the position is one of the discovery's. */
  predicate InRange(s: Running) {
    match s.point
    case Dropping(left) => left <= s.base.Keys
    case Matched(left, name, _) => left <= s.base.Keys && name in s.base && name !in NamesOf(s.found)
    case Landing(i) => i <= |s.found|
    case Asked(i, _) => i < |s.found| && s.found[i].exposedName in s.base
    case Absent(i) => i < |s.found| && s.found[i].exposedName in s.base
    case Done => true
  }

  function Registering(s: Running, i: nat): Running
    requires i < |s.found|
  {
    s.(registry := WithEntry(s.registry, s.found[i].exposedName, Ours(s.found[i])), point := Landing(i + 1))
  }

  function Call(s: Running, name: string): (t: Running)
    requires InRange(s)
    ensures InRange(t)
  {
    match s.point
    case Dropping(left) =>
      if left == {} then s.(point := Landing(0))
      else if name !in left then s
      else if name in NamesOf(s.found) then s.(point := Dropping(left - {name}))
      else s.(point := Matched(left - {name}, name, Held(s.registry, s.base, name)))
    case Matched(left, n, held) =>
      s.(registry := if held then WithoutEntry(s.registry, n) else s.registry, point := Dropping(left))
    case Landing(i) =>
      if i == |s.found| then s.(point := Done)
      else if s.found[i].exposedName in s.base then
        s.(point := Asked(i, Held(s.registry, s.base, s.found[i].exposedName)))
      else Registering(s, i)
    case Asked(i, held) =>
      var n := s.found[i].exposedName;
      if held then if Matches(s.base[n], s.found[i]) then s.(point := Landing(i + 1)) else Registering(s, i)
      else if n in s.registry.tools then s.(point := Landing(i + 1))
      else s.(point := Absent(i))
    case Absent(i) => Registering(s, i)
    case Done => s
  }

  function Step(s: Running, m: Move): (t: Running)
    requires InRange(s)
    ensures InRange(t) && t.base == s.base && t.found == s.found
  {
    match m
    case Advance(name) => Call(s, name)
    case Write(name, schema) => s.(registry := WithEntry(s.registry, name, Foreign(schema)))
    case Erase(name) => s.(registry := WithoutEntry(s.registry, name))
  }

  function After(s: Running, moves: seq<Move>): (t: Running)
    requires InRange(s)
    ensures InRange(t) && t.base == s.base && t.found == s.found
    decreases |moves|
  {
    if moves == [] then s else After(Step(s, moves[0]), moves[1..])
  }

  // ---------------------------------------------------------------- it comes to an end

  ghost predicate OnlyCalls(moves: seq<Move>) {
    forall i :: 0 <= i < |moves| ==> moves[i].Advance?
  }

  /** How many calls of the sync are left at most. */
  function CallsLeft(s: Running): nat
    requires InRange(s)
  {
    var n := |s.found|;
    match s.point
    case Dropping(left) => 3 * n + 3 + 2 * |left|
    case Matched(left, _, _) => 3 * n + 4 + 2 * |left|
    case Landing(i) => 3 * (n - i) + 1
    case Asked(i, _) => 3 * (n - i)
    case Absent(i) => 3 * (n - i) - 1
    case Done => 0
  }

  /** Left alone, a sync gets to its end from wherever it is. */
  lemma {:induction false} LeftAloneItEnds(s: Running) returns (moves: seq<Move>)
    requires InRange(s)
    ensures OnlyCalls(moves) && After(s, moves).point == Done
    decreases CallsLeft(s)
  {
    if s.point.Done? {
      moves := [];
    } else {
      var name := "";
      if s.point.Dropping? && s.point.left != {} {
        name :| name in s.point.left;
      }
      CallLeavesFewer(s, name);
      var rest := LeftAloneItEnds(Call(s, name));
      moves := [Advance(name)] + rest;
      assert moves[1..] == rest;
    }
  }

  lemma CallLeavesFewer(s: Running, name: string)
    requires InRange(s) && !s.point.Done?
    requires s.point.Dropping? && s.point.left != {} ==> name in s.point.left
    ensures CallsLeft(Call(s, name)) < CallsLeft(s)
  {
    if s.point.Dropping? && s.point.left != {} {
      assert |s.point.left - {name}| == |s.point.left| - 1;
    }
  }

  // ---------------------------------------------------------------- what is ours stays covered

  /** The entry this provider has under a name, if the entry is its own. */
  function OursAt(r: Registry, name: string): Option<McpTool> {
    if name in r.tools && r.tools[name].Ours? then Some(r.tools[name].tool) else None
  }

  /** An entry of ours is one the baseline remembers, or the discovered tool of its name. */
  ghost predicate Known(s: Running, name: string) {
    OursAt(s.registry, name).Some? ==>
      var t := OursAt(s.registry, name).value;
      || (name in s.base && s.base[name] == t)
      || (name in NamesOf(s.found) && Named(s.found, name) == t)
  }

  /** Names the sync is through with: unlisted ones hold nothing of ours, listed ones at most the discovered tool. */
  ghost predicate Settled(s: Running, name: string) {
    OursAt(s.registry, name).Some? ==>
      name in NamesOf(s.found) && Named(s.found, name) == OursAt(s.registry, name).value
  }

  predicate Through(s: Running, name: string) {
    var listed := name in NamesOf(s.found);
    match s.point
    case Dropping(left) => !listed && name !in left
    case Matched(left, n, held) => !listed && name !in left && (name == n ==> !held)
    case Landing(i) => !listed || name in NamesOf(s.found[..Min(i, |s.found|)])
    case Asked(i, held) =>
      || !listed || name in NamesOf(s.found[..Min(i, |s.found|)])
      || (i < |s.found| && name == s.found[i].exposedName && !held)
    case Absent(i) =>
      !listed || name in NamesOf(s.found[..Min(i, |s.found|)]) || (i < |s.found| && name == s.found[i].exposedName)
    case Done => true
  }

  ghost predicate NameOk(s: Running, name: string) {
    Known(s, name) && (Through(s, name) ==> Settled(s, name))
  }

  lemma FoundAt(found: seq<McpTool>, i: nat)
    requires DistinctNames(found) && i < |found|
    ensures found[i].exposedName in NamesOf(found) && Named(found, found[i].exposedName) == found[i]
    ensures NamesOf(found[..i + 1]) == NamesOf(found[..i]) + {found[i].exposedName}
  {
    assert found[i] in found;
    NamedOfDistinct(found, found[i]);
    DistinctPrefix(found, i);
  }

  lemma OthersKeepName(s: Running, m: Move, name: string)
    requires InRange(s) && !m.Advance? && NameOk(s, name)
    ensures NameOk(Step(s, m), name)
  {
  }

  lemma DroppingKeepsName(s: Running, m: Move, name: string)
    requires InRange(s) && m.Advance? && (s.point.Dropping? || s.point.Matched?) && NameOk(s, name)
    ensures NameOk(Step(s, m), name)
  {
    assert s.found[..0] == [];
  }

  lemma LandingKeepsName(s: Running, m: Move, name: string)
    requires InRange(s) && DistinctNames(s.found) && m.Advance? && s.point.Landing? && NameOk(s, name)
    ensures NameOk(Step(s, m), name)
  {
    var i := s.point.next;
    if i < |s.found| {
      FoundAt(s.found, i);
    } else {
      assert s.found[..i] == s.found;
    }
  }

  lemma AskedKeepsName(s: Running, m: Move, name: string)
    requires InRange(s) && DistinctNames(s.found) && m.Advance? && (s.point.Asked? || s.point.Absent?)
    requires NameOk(s, name)
    ensures NameOk(Step(s, m), name)
  {
    FoundAt(s.found, s.point.next);
  }

  lemma {:induction false} AfterKeepsName(s: Running, moves: seq<Move>, name: string)
    requires InRange(s) && DistinctNames(s.found) && NameOk(s, name)
    ensures NameOk(After(s, moves), name)
    decreases |moves|
  {
    if moves != [] {
      var m := moves[0];
      if !m.Advance? {
        OthersKeepName(s, m, name);
      } else if s.point.Dropping? || s.point.Matched? {
        DroppingKeepsName(s, m, name);
      } else if s.point.Landing? {
        LandingKeepsName(s, m, name);
      } else if s.point.Asked? || s.point.Absent? {
        AskedKeepsName(s, m, name);
      }
      AfterKeepsName(Step(s, m), moves[1..], name);
    }
  }

  /**
   However others write in between, a sync that comes to its end leaves nothing of ours but the
   discovered tools, and its new baseline covers all of it.
   */
  lemma InterleavedSyncCovers(w: World, found: seq<McpTool>, moves: seq<Move>)
    requires BaselineCovers(w) && DistinctNames(found)
    requires After(Begin(w.registry, w.provider.registered, found), moves).point == Done
    ensures var r := After(Begin(w.registry, w.provider.registered, found), moves).registry;
      && BaselineCovers(World(r, w.provider.(tools := found, registered := Baseline(found))))
      && NoneStale(r, found)
  {
    var s := Begin(w.registry, w.provider.registered, found);
    var t := After(s, moves);
    forall n | n in t.registry.tools && t.registry.tools[n].Ours?
      ensures n in NamesOf(found) && t.registry.tools[n].tool == Named(found, n)
    {
      assert Known(s, n);
      AfterKeepsName(s, moves, n);
      assert OursAt(t.registry, n).Some?;
    }
  }

  // ---------------------------------------------------------------- what others lose

  ghost predicate OnlyOthers(moves: seq<Move>) {
    forall i :: 0 <= i < |moves| ==> !moves[i].Advance?
  }

  lemma {:induction false} OthersMoveNothing(s: Running, moves: seq<Move>)
    requires InRange(s) && OnlyOthers(moves)
    ensures After(s, moves).point == s.point
    decreases |moves|
  {
    if moves != [] {
      OthersMoveNothing(Step(s, moves[0]), moves[1..]);
    }
  }

  /** Something stands under the name, and not the registration the baseline remembers. */
  predicate Other(s: Running, name: string) {
    name in s.registry.tools && !Held(s.registry, s.base, name)
  }

  /** So it is under a name the baseline knows. */
  predicate Strange(s: Running, name: string) {
    name in s.base && Other(s, name)
  }

  /**
   A strange entry is lost to a removal if and only if it landed between the match and the remove
   of a name that matched: one that was there at the match is never lost.
   */
  lemma RemovalLosesIff(s: Running, name: string, writes: seq<Move>)
    requires InRange(s) && s.point.Dropping? && name in s.point.left && name !in NamesOf(s.found) && OnlyOthers(writes)
    requires Strange(After(Step(s, Advance(name)), writes), name)
    ensures var before := After(Step(s, Advance(name)), writes);
      name !in Step(before, Advance(name)).registry.tools <==>
        Get(before.registry, name) != Get(s.registry, name) && Held(s.registry, s.base, name)
  {
    OthersMoveNothing(Step(s, Advance(name)), writes);
  }

  /**
   The same for the refresh of a name whose tool changed: a strange entry is overwritten if and only
   if it landed between the match and the register.
   */
  lemma RefreshLosesIff(s: Running, writes: seq<Move>)
    requires InRange(s) && s.point.Landing? && s.point.next < |s.found| && OnlyOthers(writes)
    requires var t := s.found[s.point.next];
      && t.exposedName in s.base && !Matches(s.base[t.exposedName], t)
      && Strange(After(Step(s, Advance(t.exposedName)), writes), t.exposedName)
    ensures var name := s.found[s.point.next].exposedName;
      var before := After(Step(s, Advance(name)), writes);
      Step(before, Advance(name)).registry != before.registry <==>
        Get(before.registry, name) != Get(s.registry, name) && Held(s.registry, s.base, name)
  {
    OthersMoveNothing(Step(s, Advance(s.found[s.point.next].exposedName)), writes);
  }

  /** And for a known name that was found absent: whatever landed after `contains` is overwritten. */
  lemma LateEntryIsOverwritten(s: Running, writes: seq<Move>)
    requires InRange(s) && s.point.Asked? && !s.point.held && OnlyOthers(writes)
    requires s.found[s.point.next].exposedName !in s.registry.tools
    ensures var t := s.found[s.point.next];
      Get(Step(After(Step(s, Advance(t.exposedName)), writes), Advance(t.exposedName)).registry, t.exposedName)
        == Some(Ours(t))
  {
    OthersMoveNothing(Step(s, Advance(s.found[s.point.next].exposedName)), writes);
  }

  // ---------------------------------------------------------------- what others lose over a whole sync

  function At(s: Running, moves: seq<Move>, i: nat): (t: Running)
    requires InRange(s) && i <= |moves|
    ensures InRange(t) && t.base == s.base && t.found == s.found
  {
    After(s, moves[..i])
  }

  lemma {:induction false} AfterSnoc(s: Running, moves: seq<Move>, m: Move)
    requires InRange(s)
    ensures After(s, moves + [m]) == Step(After(s, moves), m)
    decreases |moves|
  {
    if moves != [] {
      assert (moves + [m])[1..] == moves[1..] + [m];
      AfterSnoc(Step(s, moves[0]), moves[1..], m);
    } else {
      assert [m][1..] == [];
    }
  }

  lemma AtNext(s: Running, moves: seq<Move>, i: nat)
    requires InRange(s) && i < |moves|
    ensures At(s, moves, i + 1) == Step(At(s, moves, i), moves[i])
  {
    assert moves[..i + 1] == moves[..i] + [moves[i]];
    AfterSnoc(s, moves[..i], moves[i]);
  }

  /** The sync has its answer and will act on it: its next call removes or replaces the entry under the name. */
  predicate Acting(s: Running, name: string)
    requires InRange(s)
  {
    match s.point
    case Matched(_, n, held) => name == n && held
    case Asked(i, held) => name == s.found[i].exposedName && held && !Matches(s.base[name], s.found[i])
    case Absent(i) => name == s.found[i].exposedName
    case _ => false
  }

  ghost predicate NoCalls(moves: seq<Move>, i: nat, j: nat) {
    forall k :: i <= k < j && k < |moves| ==> !moves[k].Advance?
  }

  /** Others leave the sync at its point, and what they leave under a name is not ours unless nothing changed. */
  lemma {:induction false} OthersBetween(s: Running, moves: seq<Move>, i: nat, j: nat, name: string)
    requires InRange(s) && i <= j <= |moves| && NoCalls(moves, i, j)
    ensures var a, b := At(s, moves, i), At(s, moves, j);
      b.point == a.point && (Get(b.registry, name) == Get(a.registry, name) || OursAt(b.registry, name).None?)
    decreases j
  {
    if i < j {
      OthersBetween(s, moves, i, j - 1, name);
      AtNext(s, moves, j - 1);
    }
  }

  /** The call after which the sync has been at its present point. */
  lemma {:induction false} LastCall(s: Running, moves: seq<Move>, j: nat) returns (i: nat)
    requires InRange(s) && j <= |moves| && At(s, moves, j).point != s.point
    ensures i < j && moves[i].Advance? && NoCalls(moves, i + 1, j)
    ensures At(s, moves, i + 1).point == At(s, moves, j).point
    decreases j
  {
    assert j > 0;
    if moves[j - 1].Advance? {
      i := j - 1;
    } else {
      AtNext(s, moves, j - 1);
      i := LastCall(s, moves, j - 1);
    }
  }

  /** Before it acts, the sync has just seen the remembered registration, or nothing. */
  lemma CheckSaw(s: Running, called: string, name: string)
    requires InRange(s) && Acting(Call(s, called), name)
    ensures Call(s, called).registry == s.registry && !Other(s, name)
  {
  }

  /** The sync is about to register a name its baseline does not know, and asks nothing first. */
  predicate Unasked(s: Running, name: string)
    requires InRange(s)
  {
    s.point.Landing? && s.point.next < |s.found| && s.found[s.point.next].exposedName == name && name !in s.base
  }

  lemma ActsOnlyThen(s: Running, called: string, name: string)
    requires InRange(s) && Other(s, name)
    ensures Get(Call(s, called).registry, name) != Get(s.registry, name) ==> Acting(s, name) || Unasked(s, name)
    ensures Acting(s, name) ==>
      Get(Call(s, called).registry, name) == None || OursAt(Call(s, called).registry, name).Some?
    ensures Unasked(s, name) ==> Get(Call(s, called).registry, name) == Some(Ours(s.found[s.point.next]))
  {
  }

  /** The call at `i` was the check on which the call at `j` acts, and the entry under the name is another since. */
  ghost predicate LandedInWindow(s: Running, moves: seq<Move>, i: nat, j: nat, name: string)
    requires InRange(s) && i < j <= |moves|
  {
    && moves[i].Advance? && NoCalls(moves, i + 1, j) && Acting(At(s, moves, i + 1), name)
    && Get(At(s, moves, i).registry, name) != Get(At(s, moves, j).registry, name)
  }

  /**
   Over a whole sync, whoever else writes and whenever, for every name: a call of the sync takes away
   what is not the remembered registration if and only if that landed after the sync's last check, and
   the check was answered by what the baseline remembers under the name, or by its absence; or the
   baseline does not know the name and this call registers it, which no check precedes.
   */
  lemma SyncLosesIff(registry: Registry, base: map<string, McpTool>, found: seq<McpTool>, moves: seq<Move>, j: nat,
                     name: string)
    requires j < |moves| && moves[j].Advance?
    requires Other(At(Begin(registry, base, found), moves, j), name)
    ensures var s := Begin(registry, base, found);
      var before := At(s, moves, j);
      Get(At(s, moves, j + 1).registry, name) != Get(before.registry, name) <==>
        || (exists i :: 0 <= i < j && LandedInWindow(s, moves, i, j, name))
        || (Unasked(before, name) && Get(before.registry, name) != Some(Ours(found[before.point.next])))
  {
    var s := Begin(registry, base, found);
    AtNext(s, moves, j);
    ActsOnlyThen(At(s, moves, j), moves[j].name, name);
    if Acting(At(s, moves, j), name) {
      var i := LastCall(s, moves, j);
      AtNext(s, moves, i);
      CheckSaw(At(s, moves, i), moves[i].name, name);
      assert LandedInWindow(s, moves, i, j, name);
    }
    forall i | 0 <= i < j && LandedInWindow(s, moves, i, j, name)
      ensures Get(At(s, moves, j + 1).registry, name) != Get(At(s, moves, j).registry, name)
    {
      WindowLoses(s, moves, i, j, name);
    }
  }

  lemma WindowLoses(s: Running, moves: seq<Move>, i: nat, j: nat, name: string)
    requires InRange(s) && i < j < |moves| && moves[j].Advance? && Other(At(s, moves, j), name)
    requires LandedInWindow(s, moves, i, j, name)
    ensures Get(At(s, moves, j + 1).registry, name) != Get(At(s, moves, j).registry, name)
  {
    AtNext(s, moves, i);
    AtNext(s, moves, j);
    CheckSaw(At(s, moves, i), moves[i].name, name);
    OthersBetween(s, moves, i + 1, j, name);
    ActsOnlyThen(At(s, moves, j), moves[j].name, name);
  }

  /** The sync has got beyond one of the discovered tools. */
  predicate Beyond(s: Running, k: nat) {
    match s.point
    case Landing(i) => k < i
    case Asked(i, _) => k < i
    case Absent(i) => k < i
    case Done => true
    case _ => false
  }

  lemma {:induction false} LandingCall(s: Running, moves: seq<Move>, m: nat, k: nat) returns (j: nat)
    requires InRange(s) && s.point.Dropping? && m <= |moves| && k < |s.found| && s.found[k].exposedName !in s.base
    requires Beyond(At(s, moves, m), k)
    ensures j < m && moves[j].Advance? && At(s, moves, j).point == Landing(k)
    decreases m
  {
    assert m > 0;
    AtNext(s, moves, m - 1);
    if Beyond(At(s, moves, m - 1), k) {
      j := LandingCall(s, moves, m - 1, k);
    } else {
      j := m - 1;
    }
  }

  /**
   A listed name the baseline does not know is overwritten in every sync that comes to its end, whatever
   stood or landed under it before the one call that registers it.
   */
  lemma UnknownNameIsOverwritten(registry: Registry, base: map<string, McpTool>, found: seq<McpTool>,
                                 moves: seq<Move>, k: nat)
    returns (j: nat)
    requires k < |found| && found[k].exposedName !in base
    requires After(Begin(registry, base, found), moves).point == Done
    ensures var s := Begin(registry, base, found);
      && j < |moves| && moves[j].Advance? && Unasked(At(s, moves, j), found[k].exposedName)
      && Get(At(s, moves, j + 1).registry, found[k].exposedName) == Some(Ours(found[k]))
  {
    var s := Begin(registry, base, found);
    assert moves[..|moves|] == moves;
    j := LandingCall(s, moves, |moves|, k);
    AtNext(s, moves, j);
  }

  ghost predicate NobodyElseWrites(moves: seq<Move>, name: string) {
    forall i :: 0 <= i < |moves| ==> moves[i].Advance? || moves[i].name != name
  }

  lemma {:induction false} StaysStrange(s: Running, moves: seq<Move>, name: string)
    requires InRange(s) && NobodyElseWrites(moves, name) && Strange(s, name) && !Acting(s, name)
    ensures Get(After(s, moves).registry, name) == Get(s.registry, name)
    decreases |moves|
  {
    if moves != [] {
      var t := Step(s, moves[0]);
      if moves[0].Advance? {
        ActsOnlyThen(s, moves[0].name, name);
        StillNotActing(s, moves[0].name, name);
      }
      assert Get(t.registry, name) == Get(s.registry, name);
      StaysStrange(t, moves[1..], name);
    }
  }

  lemma StillNotActing(s: Running, called: string, name: string)
    requires InRange(s) && Strange(s, name)
    ensures !Acting(Call(s, called), name)
  {
  }

  /** So an entry that was strange before the sync, and that nobody else touches, outlives every sync as it is. */
  lemma StrangerOutlivesTheSync(registry: Registry, base: map<string, McpTool>, found: seq<McpTool>, moves: seq<Move>,
                                name: string)
    requires Strange(Begin(registry, base, found), name) && NobodyElseWrites(moves, name)
    ensures Get(After(Begin(registry, base, found), moves).registry, name) == Get(registry, name)
  {
    StaysStrange(Begin(registry, base, found), moves, name);
  }

  // ---------------------------------------------------------------- runs of interleaved syncs

  /**
   An action nobody interrupts, a sync with calls of others in between, or one register call of a
   `register_into` (which may come with calls of others before the next).
   */
  datatype LongAction =
    | Whole(action: Action)
    | Interleaved(listing: seq<ServerTool>, moves: seq<Move>)
    | RegisterOne(index: nat)

  /** Nothing comes after a sync that has not come to its end: it holds the provider until then. */
  function LongStep(w: World, a: LongAction): Option<World> {
    match a
    case Whole(action) => Some(McpSync.Step(w, action))
    case Interleaved(listing, moves) =>
      var found := Discover(listing, w.provider.settings);
      var s := After(Begin(w.registry, w.provider.registered, found), moves);
      if s.point.Done?
      then Some(World(s.registry, w.provider.(tools := found, registered := Baseline(found))))
      else None
    case RegisterOne(i) =>
      var tools := w.provider.tools;
      Some(if i < |tools| then RegisterAll(w, [tools[i]]) else w)
  }

  function LongAfter(w: World, run: seq<LongAction>): Option<World> {
    if run == [] then Some(w)
    else
      var before := LongAfter(w, run[..|run| - 1]);
      if before.None? then None else LongStep(before.value, run[|run| - 1])
  }

  lemma LongStepCovers(w: World, a: LongAction)
    requires BaselineCovers(w) && LongStep(w, a).Some?
    ensures BaselineCovers(LongStep(w, a).value)
    ensures a.Interleaved? ==> NoneStale(LongStep(w, a).value.registry, Discover(a.listing, w.provider.settings))
  {
    match a
    case Whole(action) => StepCovers(w, action);
    case Interleaved(listing, moves) =>
      DiscoverIsDistinct(listing, w.provider.settings);
      InterleavedSyncCovers(w, Discover(listing, w.provider.settings), moves);
    case RegisterOne(i) =>
      if i < |w.provider.tools| {
        RegisterAllCovers(w, [w.provider.tools[i]]);
      }
  }

  /**
   Over any run, its syncs interleaved with other writers in any way, the baseline covers what is ours,
   and what is ours after a sync is the discovered tools.
   */
  lemma {:induction false} BaselineCoversInterleaved(w: World, run: seq<LongAction>)
    requires Start(w) && LongAfter(w, run).Some?
    ensures BaselineCovers(LongAfter(w, run).value)
    ensures run != [] && run[|run| - 1].Interleaved? ==>
      NoneStale(LongAfter(w, run).value.registry,
                Discover(run[|run| - 1].listing, LongAfter(w, run[..|run| - 1]).value.provider.settings))
    decreases |run|
  {
    if run != [] {
      BaselineCoversInterleaved(w, run[..|run| - 1]);
      LongStepCovers(LongAfter(w, run[..|run| - 1]).value, run[|run| - 1]);
    }
  }

  // ---------------------------------------------------------------- a sync nobody interrupts

  /** What the registry holds at each point of an uninterrupted sync over the registry it started from. */
  ghost predicate OnCourse(s: Running, r: Registry) {
    var dropped := Dropped(r, s.base, NamesOf(s.found));
    match s.point
    case Dropping(left) => s.registry == Prune(r, dropped - left)
    case Matched(left, name, held) =>
      name !in left && s.registry == Prune(r, dropped - (left + {name})) && (held <==> name in dropped)
    case Landing(i) => i <= |s.found| && s.registry == LandAll(Prune(r, dropped), s.base, s.found[..i])
    case Asked(i, held) =>
      && i < |s.found| && s.registry == LandAll(Prune(r, dropped), s.base, s.found[..i])
      && (held <==> Held(s.registry, s.base, s.found[i].exposedName))
    case Absent(i) =>
      && i < |s.found| && s.registry == LandAll(Prune(r, dropped), s.base, s.found[..i])
      && s.found[i].exposedName !in s.registry.tools
    case Done => s.registry == LandAll(Prune(r, dropped), s.base, s.found)
  }

  lemma LookedAt(s: Running, r: Registry, name: string)
    requires InRange(s) && s.point.Dropping? && name in s.point.left && OnCourse(s, r)
    ensures OnCourse(Call(s, name), r)
  {
    var left := s.point.left;
    DropOne(r, s.base, NamesOf(s.found), left, name);
    assert left - {name} + {name} == left;
  }

  lemma RemovedOrKept(s: Running, r: Registry)
    requires InRange(s) && s.point.Matched? && OnCourse(s, r)
    ensures OnCourse(Call(s, s.point.name), r)
  {
    var left, n := s.point.left, s.point.name;
    DropOne(r, s.base, NamesOf(s.found), left + {n}, n);
    assert left + {n} - {n} == left;
  }

  lemma DroppingStaysOnCourse(s: Running, r: Registry, name: string)
    requires InRange(s) && (s.point.Dropping? || s.point.Matched?) && OnCourse(s, r)
    ensures OnCourse(Call(s, name), r)
  {
    match s.point
    case Dropping(left) =>
      if left == {} {
        NothingLeft(s, r, name);
      } else if name in left {
        LookedAt(s, r, name);
      }
    case Matched(_, n, _) =>
      RemovedOrKept(s, r);
      assert Call(s, name) == Call(s, n);
  }

  lemma NothingLeft(s: Running, r: Registry, name: string)
    requires InRange(s) && s.point == Dropping({}) && OnCourse(s, r)
    ensures OnCourse(Call(s, name), r)
  {
    var dropped := Dropped(r, s.base, NamesOf(s.found));
    assert dropped - {} == dropped && s.found[..0] == [];
  }

  lemma LandStaysOnCourse(s: Running, r: Registry, i: nat)
    requires i < |s.found| && DistinctNames(s.found)
    requires s.registry == LandAll(Prune(r, Dropped(r, s.base, NamesOf(s.found))), s.base, s.found[..i])
    ensures var dropped := Dropped(r, s.base, NamesOf(s.found));
      LandAll(Prune(r, dropped), s.base, s.found[..i + 1]) ==
        if Registers(s.registry, s.base, s.found[i])
        then WithEntry(s.registry, s.found[i].exposedName, Ours(s.found[i]))
        else s.registry
  {
    var dropped := Dropped(r, s.base, NamesOf(s.found));
    DistinctPrefix(s.found, i);
    DecisionStands(r, s.base, dropped, s.found[..i], s.found[i].exposedName);
    assert s.found[..i + 1][..i] == s.found[..i];
  }

  lemma LandingStaysOnCourse(s: Running, r: Registry, name: string)
    requires InRange(s) && DistinctNames(s.found) && OnCourse(s, r)
    requires s.point.Landing? || s.point.Asked? || s.point.Absent? || s.point.Done?
    ensures OnCourse(Call(s, name), r)
  {
    if !s.point.Done? {
      if s.point.next < |s.found| {
        LandStaysOnCourse(s, r, s.point.next);
      } else {
        assert s.found[..s.point.next] == s.found;
      }
    }
  }

  lemma {:induction false} CallsStayOnCourse(s: Running, r: Registry, moves: seq<Move>)
    requires InRange(s) && DistinctNames(s.found) && OnCourse(s, r) && OnlyCalls(moves)
    ensures OnCourse(After(s, moves), r)
    decreases |moves|
  {
    if moves != [] {
      if s.point.Dropping? || s.point.Matched? {
        DroppingStaysOnCourse(s, r, moves[0].name);
      } else {
        LandingStaysOnCourse(s, r, moves[0].name);
      }
      CallsStayOnCourse(Step(s, moves[0]), r, moves[1..]);
    }
  }

  /** Without others in between, whatever order the map yields, the calls add up to the sync as one step. */
  lemma UninterruptedIsSync(w: World, found: seq<McpTool>, moves: seq<Move>)
    requires DistinctNames(found) && OnlyCalls(moves)
    requires After(Begin(w.registry, w.provider.registered, found), moves).point == Done
    ensures After(Begin(w.registry, w.provider.registered, found), moves).registry == Sync(w, found).registry
  {
    var s := Begin(w.registry, w.provider.registered, found);
    DropNone(w.registry, s.base, NamesOf(found));
    CallsStayOnCourse(s, w.registry, moves);
  }
}
