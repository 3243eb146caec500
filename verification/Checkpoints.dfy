/** Retention in a snapshot store that several sessions share (crates/checkpoint). */
module Checkpoints {
  import opened Basics
  import opened Text

  // ----- Names -----

  const REFS := "refs/keke/snapshots"

  predicate RefSafeChar(c: char) {
    'a' <= c <= 'z' || 'A' <= c <= 'Z' || '0' <= c <= '9' || c == '-' || c == '_'
  }

  function Cleaned(session: string): (r: string)
    ensures |r| == |session| && forall i | 0 <= i < |r| :: RefSafeChar(r[i])
  {
    if session == "" then "" else [if RefSafeChar(session[0]) then session[0] else '-'] + Cleaned(session[1..])
  }

  /** What a session is called inside a ref name: never empty, never more than one piece. */
  function RefSafe(session: string): (r: string)
    ensures r != "" && '/' !in r
  {
    if session == "" then "session" else Cleaned(session)
  }

  predicate Ordinary(c: char) {
    c in CAPITALS || c in SMALL || c in DIGITS || c == '-' || c == '_'
  }

  lemma KeptOneByOne(c: char)
    ensures RefSafeChar(c) <==> Ordinary(c)
  {
    Capitals(c);
    Small(c);
    Digits(c);
  }

  // A session id keeps its letters, digits, dashes and underscores; every other
  // character becomes a dash.
  lemma {:induction false} CleanedKeeps(session: string, i: nat)
    requires i < |session|
    ensures RefSafe(session)[i] == if Ordinary(session[i]) then session[i] else '-'
  {
    CleanedAt(session, i);
    KeptOneByOne(session[i]);
  }

  lemma {:induction false} CleanedAt(session: string, i: nat)
    requires i < |session|
    ensures Cleaned(session)[i] == if RefSafeChar(session[i]) then session[i] else '-'
  {
    if i > 0 {
      CleanedAt(session[1..], i - 1);
    }
  }

  function RefName(owner: string, commit: string): string {
    REFS + "/" + owner + "/" + commit
  }

  function DropLeading(s: string): string {
    if s != "" && s[0] == '/' then DropLeading(s[1..]) else s
  }

  /** The session a ref belongs to, if it is a snapshot's. */
  function RefOwner(name: string): Option<string> {
    if REFS <= name then Some(Split(DropTrailing(DropLeading(name[|REFS|..]), '/'), '/')[0]) else None
  }

  lemma {:induction false} DropTrailingKeeps(a: string, t: string)
    requires a != "" && a[|a| - 1] != '/'
    ensures DropTrailing(a + t, '/') == a + DropTrailing(t, '/')
  {
    if t != "" && t[|t| - 1] == '/' {
      assert (a + t)[..|a + t| - 1] == a + t[..|t| - 1];
      DropTrailingKeeps(a, t[..|t| - 1]);
    } else if t == "" {
      assert a + t == a;
    }
  }

  lemma {:induction false} DropTrailingStart(t: string)
    requires t != "" && t[0] == '/'
    ensures DropTrailing(t, '/') == "" || DropTrailing(t, '/')[0] == '/'
  {
    if t[|t| - 1] == '/' && |t| > 1 {
      DropTrailingStart(t[..|t| - 1]);
    }
  }

  lemma FirstPiece(a: string, t: string)
    requires '/' !in a && (t == "" || t[0] == '/')
    ensures Split(a + t, '/')[0] == a
  {
    SplitNone(a, '/');
    if t == "" {
      assert a + t == a;
    } else {
      assert a + t == a + ['/'] + t[1..];
      SplitConcat(a, t[1..], '/');
    }
  }

  // The owner read back from a snapshot's ref is the session that took it.
  lemma OwnerRoundTrip(session: string, commit: string)
    ensures RefOwner(RefName(RefSafe(session), commit)) == Some(RefSafe(session))
  {
    var a, t := RefSafe(session), "/" + commit;
    var name := RefName(a, commit);
    assert name == REFS + ("/" + (a + t));
    assert name[|REFS|..] == "/" + (a + t);
    assert ("/" + (a + t))[1..] == a + t;
    assert a[0] in a && a[|a| - 1] in a;
    assert (a + t)[0] == a[0];
    assert DropLeading("/" + (a + t)) == DropLeading(a + t) == a + t;
    DropTrailingKeeps(a, t);
    DropTrailingStart(t);
    FirstPiece(a, DropTrailing(t, '/'));
  }

  // Only a name outside the snapshots' own place has no owner.
  lemma OwnedExactlyWhen(name: string)
    ensures RefOwner(name) == None <==> !exists rest :: name == REFS + rest
  {
    if REFS <= name {
      assert name == REFS + name[|REFS|..];
    }
  }

  // ----- Pruning -----

  /** What git prints as a ref's date. */
  datatype Taken = At(seconds: nat) | Unreadable | Blank

  /** When each ref was taken, and when each session's index was last written; `None` where the disk cannot say. */
  datatype Store = Store(refs: map<string, Taken>, indexes: map<string, Option<nat>>)

  const DAY: nat := 86_400

  function Cutoff(now: Option<nat>, keepDays: nat): Option<nat> {
    if now.Some? && now.value >= keepDays * DAY then Some(now.value - keepDays * DAY) else None
  }

  predicate RecentlyActive(indexes: map<string, Option<nat>>, session: string, cutoff: nat) {
    session in indexes && (indexes[session].None? || indexes[session].value >= cutoff)
  }

  predicate Expired(refs: map<string, Taken>, name: string, cutoff: nat) {
    name in refs && RefOwner(name).Some? && refs[name].At? && refs[name].seconds < cutoff
  }

  /** A ref without a printed date is passed over as if it were not there. */
  predicate Owns(refs: map<string, Taken>, session: string) {
    exists name | name in refs :: !refs[name].Blank? && RefOwner(name) == Some(session)
  }

  predicate HasExpired(refs: map<string, Taken>, session: string, cutoff: nat) {
    exists name | name in refs :: RefOwner(name) == Some(session) && Expired(refs, name, cutoff)
  }

  predicate RefStays(s: Store, name: string, cutoff: nat) {
    name in s.refs && (Expired(s.refs, name, cutoff) ==> RecentlyActive(s.indexes, RefOwner(name).value, cutoff))
  }

  predicate IndexStays(s: Store, self: string, session: string, cutoff: nat) {
    session in s.indexes &&
    (session == self ||
     (Owns(s.refs, session) && (RecentlyActive(s.indexes, session, cutoff) || !HasExpired(s.refs, session, cutoff))))
  }

  function Pruned(s: Store, self: string, cutoff: nat): Store {
    Store(map name | name in s.refs && RefStays(s, name, cutoff) :: s.refs[name],
          map session | session in s.indexes && IndexStays(s, self, session, cutoff) :: s.indexes[session])
  }

  lemma LateMeans(s: Store, expired: set<string>, late: set<string>, cutoff: nat)
    requires expired == set name | name in s.refs && Expired(s.refs, name, cutoff)
    requires late == set name | name in expired :: RefOwner(name).GetOr("")
    ensures forall session :: session in late <==> HasExpired(s.refs, session, cutoff)
  {
    forall session
      ensures session in late <==> HasExpired(s.refs, session, cutoff)
    {
      if session in late {
        var name :| name in expired && RefOwner(name).GetOr("") == session;
        assert RefOwner(name) == Some(session);
      }
      if HasExpired(s.refs, session, cutoff) {
        var name :| name in s.refs && RefOwner(name) == Some(session) && Expired(s.refs, name, cutoff);
        assert name in expired;
      }
    }
  }

  // The sets the prune works with say what the rules for refs and indexes say.
  lemma SurveyMeans(s: Store, self: string, cutoff: nat,
                    expired: set<string>, owners: set<string>, working: set<string>, late: set<string>)
    requires expired == set name | name in s.refs && Expired(s.refs, name, cutoff)
    requires forall session :: session in owners <==> Owns(s.refs, session)
    requires working == set session | session in owners && RecentlyActive(s.indexes, session, cutoff)
    requires late == set name | name in expired :: RefOwner(name).GetOr("")
    ensures forall name | name in s.refs ::
              RefStays(s, name, cutoff) <==> !(name in expired && RefOwner(name).GetOr("") !in working)
    ensures forall session | session in s.indexes ::
              IndexStays(s, self, session, cutoff) <==>
              session == self || session in working || (session in owners && session !in late)
  {
    forall name | name in expired
      ensures RefOwner(name).GetOr("") in owners
    {
      assert Owns(s.refs, RefOwner(name).value);
    }
    LateMeans(s, expired, late, cutoff);
  }

  lemma SweepIsPruned(s: Store, self: string, cutoff: nat,
                      expired: set<string>, owners: set<string>, working: set<string>, late: set<string>)
    requires expired == set name | name in s.refs && Expired(s.refs, name, cutoff)
    requires forall session :: session in owners <==> Owns(s.refs, session)
    requires working == set session | session in owners && RecentlyActive(s.indexes, session, cutoff)
    requires late == set name | name in expired :: RefOwner(name).GetOr("")
    ensures Pruned(s, self, cutoff).refs ==
            map name | name in s.refs && !(name in expired && RefOwner(name).GetOr("") !in working) :: s.refs[name]
    ensures var keep := working + set session | session in owners && session !in late;
            Pruned(s, self, cutoff).indexes ==
            map session | session in s.indexes && (session == self || session in keep) :: s.indexes[session]
  {
    SurveyMeans(s, self, cutoff, expired, owners, working, late);
  }

  class SnapshotStore {
    var refs: map<string, Taken>
    var indexes: map<string, Option<nat>>

    function View(): Store
      reads this
    {
      Store(refs, indexes)
    }

    constructor ()
      ensures View() == Store(map[], map[])
    {
      refs, indexes := map[], map[];
    }

    /** The refs past their time, and every session that owns a ref. */
    method Survey(cutoff: nat) returns (expired: set<string>, owners: set<string>)
      ensures expired == set name | name in refs && Expired(refs, name, cutoff)
      ensures forall session :: session in owners <==> Owns(refs, session)
    {
      expired, owners := {}, {};
      var left := refs.Keys;
      while left != {}
        invariant left <= refs.Keys
        invariant expired == set name | name in refs && name !in left && Expired(refs, name, cutoff)
        invariant forall session :: session in owners <==>
                                    exists name | name in refs && name !in left ::
                                        !refs[name].Blank? && RefOwner(name) == Some(session)
        decreases left
      {
        var name :| name in left;
        left := left - {name};
        var owner := RefOwner(name);
        if !refs[name].Blank? && owner.Some? {
          owners := owners + {owner.value};
          if refs[name].At? && refs[name].seconds < cutoff {
            expired := expired + {name};
          }
        }
      }
    }

    method Prune(self: string, now: Option<nat>, keepDays: nat)
      modifies this
      ensures View() == match Cutoff(now, keepDays)
                        case None => old(View())
                        case Some(cutoff) => Pruned(old(View()), self, cutoff)
    {
      var at := Cutoff(now, keepDays);
      if at.None? {
        return;
      }
      var cutoff := at.value;
      var expired, owners := Survey(cutoff);
      var working := set session | session in owners && RecentlyActive(indexes, session, cutoff);
      var late := set name | name in expired :: RefOwner(name).GetOr("");
      var keep := working + set session | session in owners && session !in late;
      SweepIsPruned(View(), self, cutoff, expired, owners, working, late);
      refs := map name | name in refs && !(name in expired && RefOwner(name).GetOr("") !in working) :: refs[name];
      indexes := map session | session in indexes && (session == self || session in keep) :: indexes[session];
    }
  }

  // Exactly when a snapshot survives a prune.
  lemma RefSurvivesExactlyWhen(s: Store, pruner: string, name: string, cutoff: nat)
    requires name in s.refs
    ensures name in Pruned(s, pruner, cutoff).refs <==>
            match (s.refs[name], RefOwner(name))
            case (At(taken), Some(owner)) =>
              taken >= cutoff || (owner in s.indexes && (s.indexes[owner].None? || s.indexes[owner].value >= cutoff))
            case _ => true
  {
  }

  // Whether a ref survives depends on its own age, its own session's index and
  // the cutoff: not on who prunes, nor on anything else in the store.
  lemma PruningDoesNotInterfere(s: Store, t: Store, name: string, owner: string, pruner: string, other: string,
      cutoff: nat)
    requires RefOwner(name) == Some(owner)
    requires name in s.refs && name in t.refs && s.refs[name] == t.refs[name]
    requires owner in s.indexes <==> owner in t.indexes
    requires owner in s.indexes ==> s.indexes[owner] == t.indexes[owner]
    ensures name in Pruned(s, pruner, cutoff).refs <==> name in Pruned(t, other, cutoff).refs
  {
    RefSurvivesExactlyWhen(s, pruner, name, cutoff);
    RefSurvivesExactlyWhen(t, other, name, cutoff);
  }

  // ----- Sessions sharing a store over time -----

  datatype Action =
    | Open(session: string, keepDays: nat, seeds: bool)
    | Stage(session: string)
    | Anchor(session: string, commit: string)
    | Tick(seconds: nat)

  datatype World = World(store: Store, now: nat)

  /** Copying some other session's index, when this one has none. */
  function Seeded(s: Store, self: string, now: nat, seeds: bool): Store {
    if self !in s.indexes && s.indexes != map[] && seeds then s.(indexes := s.indexes[self := Some(now)]) else s
  }

  function Act(w: World, a: Action): World {
    match a
    case Open(session, keepDays, seeds) =>
      var self := RefSafe(session);
      var pruned := match Cutoff(Some(w.now), keepDays)
        case None => w.store
        case Some(cutoff) => Pruned(w.store, self, cutoff);
      w.(store := Seeded(pruned, self, w.now, seeds))
    case Stage(session) => w.(store := w.store.(indexes := w.store.indexes[RefSafe(session) := Some(w.now)]))
    case Anchor(session, commit) =>
      w.(store := w.store.(refs := w.store.refs[RefName(RefSafe(session), commit) := At(w.now)]))
    case Tick(seconds) => w.(now := w.now + seconds)
  }

  // A session without an index starts from another's, if there is one and it can be
  // copied; one that has an index keeps it.
  lemma SeedsFromAnother(s: Store, self: string, now: nat, seeds: bool)
    ensures Seeded(s, self, now, seeds).refs == s.refs
    ensures self in s.indexes || !seeds || s.indexes.Keys == {} ==> Seeded(s, self, now, seeds) == s
    ensures self !in s.indexes && seeds && s.indexes.Keys != {} ==>
              Seeded(s, self, now, seeds).indexes == s.indexes[self := Some(now)]
  {
    if s.indexes.Keys == {} {
      assert s.indexes == map[];
    }
  }

  ghost predicate History(worlds: seq<World>, actions: seq<Action>) {
    |worlds| == |actions| + 1 && forall i | 0 <= i < |actions| :: worlds[i + 1] == Act(worlds[i], actions[i])
  }

  /** Step `k` staged on behalf of `owner`. */
  predicate StagedBy(actions: seq<Action>, k: nat, owner: string) {
    k < |actions| && actions[k].Stage? && RefSafe(actions[k].session) == owner
  }

  /** At the prune of step `j`, `owner` had staged within the window that prune keeps. */
  ghost predicate WithinWindow(worlds: seq<World>, actions: seq<Action>, j: nat, owner: string)
    requires History(worlds, actions) && j < |actions| && actions[j].Open?
  {
    match Cutoff(Some(worlds[j].now), actions[j].keepDays)
    case None => true
    case Some(cutoff) => exists k: nat | k < j :: StagedBy(actions, k, owner) && worlds[k].now >= cutoff
  }

  lemma {:induction false} TimePasses(worlds: seq<World>, actions: seq<Action>, i: nat, j: nat)
    requires History(worlds, actions) && i <= j < |worlds|
    ensures worlds[i].now <= worlds[j].now
    decreases j
  {
    if i < j {
      TimePasses(worlds, actions, i, j - 1);
    }
  }

  /** The snapshot is there and no older than its anchoring, and each staging since then shows in the owner's index. */
  ghost predicate Alive(worlds: seq<World>, actions: seq<Action>, i: nat, m: nat, owner: string, name: string)
    requires History(worlds, actions) && i < m < |worlds|
  {
    var s := worlds[m].store;
    && name in s.refs && s.refs[name].At? && s.refs[name].seconds >= worlds[i].now
    && forall k | i < k < m && StagedBy(actions, k, owner) ::
         owner in s.indexes && s.indexes[owner].Some? && s.indexes[owner].value >= worlds[k].now
  }

  lemma PruneKeepsAlive(worlds: seq<World>, actions: seq<Action>, i: nat, m: nat, owner: string, name: string)
    requires History(worlds, actions) && i < m < |actions|
    requires actions[m].Open? && WithinWindow(worlds, actions, m, owner) && RefOwner(name) == Some(owner)
    requires Alive(worlds, actions, i, m, owner, name)
    ensures Alive(worlds, actions, i, m + 1, owner, name)
  {
    var s := worlds[m].store;
    var at := Cutoff(Some(worlds[m].now), actions[m].keepDays);
    if at.Some? {
      var k: nat :| k < m && StagedBy(actions, k, owner) && worlds[k].now >= at.value;
      if k <= i {
        TimePasses(worlds, actions, k, i);
      } else {
        assert RecentlyActive(s.indexes, owner, at.value);
      }
      forall j: nat | i < j < m && StagedBy(actions, j, owner)
        ensures RecentlyActive(s.indexes, owner, at.value)
      {
        if k <= i {
          TimePasses(worlds, actions, k, j);
        }
      }
      assert Owns(s.refs, owner);
    }
  }

  lemma StepKeepsAlive(worlds: seq<World>, actions: seq<Action>, i: nat, m: nat, owner: string, name: string)
    requires History(worlds, actions) && i < m < |actions|
    requires actions[m].Open? ==> WithinWindow(worlds, actions, m, owner)
    requires RefOwner(name) == Some(owner)
    requires Alive(worlds, actions, i, m, owner, name)
    ensures Alive(worlds, actions, i, m + 1, owner, name)
  {
    match actions[m]
    case Open(_, _, _) => PruneKeepsAlive(worlds, actions, i, m, owner, name);
    case Stage(session) =>
      forall k | i < k < m && StagedBy(actions, k, owner)
        ensures worlds[k].now <= worlds[m].now
      {
        TimePasses(worlds, actions, k, m);
      }
    case Anchor(_, _) => TimePasses(worlds, actions, i, m);
    case Tick(_) =>
  }

  // A session that stages at least once in the window of every prune never
  // loses a snapshot, whatever other sessions open, stage and anchor meanwhile.
  lemma {:induction false} ActiveSessionsKeepTheirSnapshots(worlds: seq<World>, actions: seq<Action>, i: nat, n: nat)
    requires History(worlds, actions) && i < n < |worlds| && actions[i].Anchor?
    requires forall j | i < j < n && actions[j].Open? :: WithinWindow(worlds, actions, j, RefSafe(actions[i].session))
    ensures Alive(worlds, actions, i, n, RefSafe(actions[i].session),
        RefName(RefSafe(actions[i].session), actions[i].commit))
    ensures RefName(RefSafe(actions[i].session), actions[i].commit) in worlds[n].store.refs
    decreases n
  {
    if n > i + 1 {
      ActiveSessionsKeepTheirSnapshots(worlds, actions, i, n - 1);
      OwnerRoundTrip(actions[i].session, actions[i].commit);
      StepKeepsAlive(worlds, actions, i, n - 1, RefSafe(actions[i].session),
          RefName(RefSafe(actions[i].session), actions[i].commit));
    }
  }

  // Nobody's snapshot goes before its time, active session or not.
  lemma YoungSnapshotsStay(w: World, session: string, keepDays: nat, seeds: bool, name: string)
    requires name in w.store.refs && w.store.refs[name].At? && w.store.refs[name].seconds + keepDays * DAY >= w.now
    ensures name in Act(w, Open(session, keepDays, seeds)).store.refs
  {
  }

  /** Nothing was staged for the session within the window that ends now: no index, or one last written before it. */
  predicate Idle(w: World, owner: string, keepDays: nat) {
    owner in w.store.indexes ==>
      w.store.indexes[owner].Some? && w.store.indexes[owner].value + keepDays * 86_400 < w.now
  }

  // Opening the store takes every old snapshot of an idle session, once the clock
  // has run for as long as snapshots are kept.
  lemma OldSnapshotsGo(w: World, session: string, keepDays: nat, seeds: bool, name: string, owner: string)
    requires RefOwner(name) == Some(owner) && name in w.store.refs && w.store.refs[name].At?
    requires w.store.refs[name].seconds + keepDays * 86_400 < w.now && Idle(w, owner, keepDays)
    ensures name !in Act(w, Open(session, keepDays, seeds)).store.refs
  {
  }

  // So when a session does nothing more, its snapshots go with the first opening of
  // the store after that long, whoever opens it.
  lemma IdleSnapshotsGoInTime(w: World, seconds: nat, session: string, keepDays: nat, seeds: bool, name: string,
      owner: string)
    requires RefOwner(name) == Some(owner) && name in w.store.refs && w.store.refs[name].At?
    requires w.store.refs[name].seconds <= w.now && seconds > keepDays * 86_400
    requires owner in w.store.indexes ==> w.store.indexes[owner].Some? && w.store.indexes[owner].value <= w.now
    ensures name !in Act(Act(w, Tick(seconds)), Open(session, keepDays, seeds)).store.refs
  {
    OldSnapshotsGo(Act(w, Tick(seconds)), session, keepDays, seeds, name, owner);
  }

  // Before that, opening takes nothing, and neither does a clock before the epoch.
  lemma NothingGoesEarly(w: World, session: string, keepDays: nat, seeds: bool)
    requires w.now < keepDays * 86_400
    ensures Act(w, Open(session, keepDays, seeds)).store.refs == w.store.refs
    ensures forall s | s in w.store.indexes ::
              s in Act(w, Open(session, keepDays, seeds)).store.indexes
              && Act(w, Open(session, keepDays, seeds)).store.indexes[s] == w.store.indexes[s]
    ensures Cutoff(None, keepDays) == None
  {
  }

  // "A session still holding a snapshot keeps its index" is too strong: one
  // expired snapshot is enough to lose the index beside one that stays.
  lemma HoldingASnapshotIsNotEnough(pruner: string)
    requires pruner != "a"
    ensures exists s: Store, cutoff, kept ::
              && kept in Pruned(s, pruner, cutoff).refs && RefOwner(kept) == Some("a")
              && "a" in s.indexes && "a" !in Pruned(s, pruner, cutoff).indexes
  {
    var stale, kept := RefName("a", "1"), RefName("a", "2");
    assert RefSafe("a") == "a";
    OwnerRoundTrip("a", "1");
    OwnerRoundTrip("a", "2");
    assert kept[|kept| - 1] == '2' && stale[|stale| - 1] == '1';
    var s := Store(map[stale := At(1), kept := At(7)], map["a" := Some(1)]);
    assert stale in s.refs && Expired(s.refs, stale, 5);
    assert kept in Pruned(s, pruner, 5).refs && "a" !in Pruned(s, pruner, 5).indexes;
  }

  // Nor is working: a session that has just staged and has no snapshot yet loses
  // its index to the next session that opens.
  lemma WorkingIsNotEnough(w: World, session: string, other: string, keepDays: nat)
    requires RefSafe(other) != RefSafe(session) && !Owns(w.store.refs, RefSafe(session))
    requires w.now >= keepDays * DAY
    ensures RefSafe(session) in Act(w, Stage(session)).store.indexes
    ensures RefSafe(session) !in Act(Act(w, Stage(session)), Open(other, keepDays, false)).store.indexes
  {
  }

  lemma WorkingIsNotEnoughAtOnce()
    ensures var w := World(Store(map[], map[]), 30 * DAY);
            "a" !in Act(Act(w, Stage("a")), Open("b", 30, false)).store.indexes
  {
    assert RefSafe("a") == "a" && RefSafe("b") == "b";
    WorkingIsNotEnough(World(Store(map[], map[]), 30 * DAY), "a", "b", 30);
  }

  // Exactly when an index survives a prune.
  lemma IndexSurvivesExactlyWhen(s: Store, pruner: string, session: string, cutoff: nat)
    requires session in s.indexes
    ensures session in Pruned(s, pruner, cutoff).indexes <==>
            session == pruner ||
            (Owns(s.refs, session) &&
             (s.indexes[session].None? || s.indexes[session].value >= cutoff ||
              forall name | name in s.refs && RefOwner(name) == Some(session) ::
                s.refs[name].At? ==> s.refs[name].seconds >= cutoff))
  {
  }
}
