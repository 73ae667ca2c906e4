/** The commit chain (src/core/commit): each commit names its parent and says how it changes the
    state its parent leaves. A commit's state is found by replaying the chain from its root.
    Commits are frozen once built, so they are values here; the commits of a ledger sit in an
    arena, a sequence in which a commit's parent is always an earlier index, which is what a
    parent fixed at construction guarantees. */
module Commits {
  import opened Wrappers
  import opened Amounts
  import opened Commodities
  import opened Values
  import opened Entries
  import opened Accounts
  import opened States

  /** The luxon `DateTime`, carried and never read by the replay. */
  datatype Date = Date(iso: string)

  /** What a commit does: `Open`, `Close`, or `Transaction` with its entry set, in insertion
      order. */
  datatype Action =
    | OpenAction(accountUri: string)
    | CloseAction(accountUri: string)
    | TransactionAction(entries: seq<Entry>)

  /** `date`, `parent` (`null` is `None`) and the subclass's own fields. */
  datatype Commit = Commit(date: Date, parent: Option<nat>, action: Action)

  /** The commit can sit at index `i`: its parent comes earlier, and every entry of a
      transaction belongs to the transaction itself. */
  predicate FitsAt(c: Commit, i: nat) {
    && (c.parent.Some? ==> c.parent.value < i)
    && (c.action.TransactionAction? ==> forall e :: e in c.action.entries ==> e.transaction == i)
  }

  predicate WellFormed(arena: seq<Commit>) {
    forall i :: 0 <= i < |arena| ==> FitsAt(arena[i], i)
  }

  // Building commits

  /** `Account.getURI`, which the source does not show: the URI of an account-like value,
      normalised. */
  function GetUri(lib: UriLib, account: AccountLike): string {
    lib.normalize(UriOf(account))
  }

  /** The constructors of `Open` and `Close` (src/core/commit/Open.ts:27-30,
      src/core/commit/Close.ts:27-30, src/core/commit/Commit.ts:21-24): the date, the parent
      or `null`, and the account's normalised URI. */
  function NewActivation(lib: UriLib, date: Date, account: AccountLike, parent: Option<nat>, open: bool, t: nat): (c: Commit)
    requires parent.Some? ==> parent.value < t
    ensures FitsAt(c, t)
  {
    var u := GetUri(lib, account);
    Commit(date, parent, if open then OpenAction(u) else CloseAction(u))
  }

  /** The entries the `Transaction` constructor builds for `inputs`, one `Entry.fromObject`
      after another, and the commodity cache they leave. The first failure ends the loop. */
  function Built(cache: map<string, Commodity>, test: Matcher, rules: seq<Rule>, t: nat, inputs: seq<EntryLike>)
    : (r: (Result<seq<Entry>>, map<string, Commodity>))
    ensures r.0.Ok? ==> |r.0.value| == |inputs|
    ensures r.0.Ok? ==> forall k :: 0 <= k < |inputs| ==>
                          r.0.value[k].transaction == t && r.0.value[k].accountUri == UriOf(inputs[k].account)
  {
    if inputs == [] then (Ok([]), cache)
    else
      var init := Built(cache, test, rules, t, inputs[..|inputs| - 1]);
      var last := inputs[|inputs| - 1];
      if init.0.Err? then init
      else
        var e := EntryIn(init.1, test, rules, t, last);
        var after := CacheAfter(init.1, test, rules, ValueOf(last));
        if e.Err? then (Err(e.error), after) else (Ok(init.0.value + [e.value]), after)
  }

  /** Once an input fails, the inputs after it are not looked at. */
  lemma {:induction false} BuiltStops(cache: map<string, Commodity>, test: Matcher, rules: seq<Rule>, t: nat, inputs: seq<EntryLike>, n: nat)
    requires n <= |inputs| && Built(cache, test, rules, t, inputs[..n]).0.Err?
    ensures Built(cache, test, rules, t, inputs) == Built(cache, test, rules, t, inputs[..n])
    decreases |inputs| - n
  {
    if n < |inputs| {
      var init := inputs[..|inputs| - 1];
      assert init[..n] == inputs[..n];
      BuiltStops(cache, test, rules, t, init, n);
    } else {
      assert inputs[..n] == inputs;
    }
  }

  /** One more input, once the earlier ones have all been built. */
  lemma BuiltNext(cache: map<string, Commodity>, test: Matcher, rules: seq<Rule>, t: nat, inputs: seq<EntryLike>, i: nat,
                  entries: seq<Entry>, before: map<string, Commodity>)
    requires i < |inputs| && Built(cache, test, rules, t, inputs[..i]) == (Ok(entries), before)
    ensures var e := EntryIn(before, test, rules, t, inputs[i]);
            var after := CacheAfter(before, test, rules, ValueOf(inputs[i]));
            Built(cache, test, rules, t, inputs[..i + 1]) == if e.Err? then (Err(e.error), after) else (Ok(entries + [e.value]), after)
  {
    assert inputs[..i + 1][..i] == inputs[..i];
  }

  /** The `Transaction` constructor (src/core/commit/Transaction.ts:53-62): one new entry per
      input, owned by the transaction at index `t`, so the entry set has as many members as
      there were inputs. */
  method NewTransaction(reg: Registry, date: Date, inputs: seq<EntryLike>, parent: Option<nat>, t: nat) returns (r: Result<Commit>)
    requires reg.Valid() && (parent.Some? ==> parent.value < t)
    modifies reg
    ensures reg.Valid() && reg.units == old(reg.units)
    ensures var b := Built(old(reg.instances), reg.test, reg.units, t, inputs);
            && reg.instances == b.1
            && r == (if b.0.Err? then Err(b.0.error) else Ok(Commit(date, parent, TransactionAction(b.0.value))))
    ensures r.Ok? ==> FitsAt(r.value, t) && |r.value.action.entries| == |inputs|
  {
    ghost var cache := reg.instances;
    var entries: seq<Entry> := [];
    var i := 0;
    while i < |inputs|
      invariant i <= |inputs| && reg.Valid() && reg.units == old(reg.units)
      invariant Built(cache, reg.test, reg.units, t, inputs[..i]) == (Ok(entries), reg.instances)
    {
      ghost var before := reg.instances;
      var e := FromObject(reg, t, inputs[i]);
      BuiltNext(cache, reg.test, reg.units, t, inputs, i, entries, before);
      if e.Err? {
        BuiltStops(cache, reg.test, reg.units, t, inputs, i + 1);
        return Err(e.error);
      }
      entries := entries + [e.value];
      i := i + 1;
    }
    assert inputs[..i] == inputs;
    r := Ok(Commit(date, parent, TransactionAction(entries)));
    forall e | e in entries
      ensures e.transaction == t
    {
      var k :| 0 <= k < |entries| && entries[k] == e;
    }
  }

  // Replay, on values

  /** `open` or `close` on the account under `u` of a mutable copy (src/core/commit/Open.ts:20-25,
      src/core/commit/Close.ts:20-25): `get` supplies the account, whose entries the emptiness
      test compacts; a non-empty account is refused and the copy is dropped. Nothing but that
      one account changes. */
  function Activate(s: Snapshot, u: string, open: bool): (r: Result<Snapshot>)
    ensures r.Ok? <==> Empty(Kept(RecordAt(s, u).entries, u))
    ensures r.Err? ==> r.error == PlainError(if open then OpenNotEmpty else CloseNotEmpty)
    ensures r.Ok? ==> && r.value.Keys == s.Keys + {u}
                      && r.value[u].active == open
                      && (forall v :: v in s && v != u ==> r.value[v] == s[v])
    ensures r.Ok? && (forall e :: e in RecordAt(s, u).entries ==> e.accountUri == u) ==>
              r.value[u].entries == RecordAt(s, u).entries
  {
    var c := Compacted(RecordAt(s, u), u);
    KeptOwn(RecordAt(s, u).entries, u);
    if Empty(c.entries) then Ok(s[u := c.(active := open)])
    else Err(PlainError(if open then OpenNotEmpty else CloseNotEmpty))
  }

  /** What a refused `open` or `close` leaves behind: the emptiness test has compacted the
      account's entries, and its flag is as it was. */
  function Refused(s: Snapshot, u: string): Snapshot {
    s[u := AccountRecord(RecordAt(s, u).active, Kept(RecordAt(s, u).entries, u))]
  }

  /** `Activate` spelled out: the compacted record, flagged, or the refusal. */
  lemma ActivateAs(s: Snapshot, u: string, open: bool)
    ensures var es := Kept(RecordAt(s, u).entries, u);
            Activate(s, u, open) ==
              if Empty(es) then Ok(s[u := AccountRecord(open, es)])
              else Err(PlainError(if open then OpenNotEmpty else CloseNotEmpty))
  {
  }

  lemma KeptOwn(es: seq<Entry>, u: string)
    ensures (forall e :: e in es ==> e.accountUri == u) ==> Kept(es, u) == es
  {
    if forall e :: e in es ==> e.accountUri == u {
      KeptAll(es, u);
    }
  }

  /** `apply` of a transaction (src/core/commit/Transaction.ts:44-51): each entry, in order, is
      pushed onto the account `get` gives for its URI. */
  function Posted(s: Snapshot, es: seq<Entry>): Snapshot {
    if es == [] then s else Pushed(Posted(s, es[..|es| - 1]), es[|es| - 1])
  }

  /** Posting one more entry is pushing it onto what the ones before it left. */
  lemma PostedNext(s: Snapshot, es: seq<Entry>, i: nat)
    requires i < |es|
    ensures Posted(s, es[..i + 1]) == Pushed(Posted(s, es[..i]), es[i])
  {
    assert es[..i + 1][..i] == es[..i];
  }

  /** `account.entries.push(entry)` on the account `get` gives for the entry's URI. */
  function Pushed(s: Snapshot, e: Entry): Snapshot {
    var r := RecordAt(s, e.accountUri);
    s[e.accountUri := AccountRecord(r.active, Kept(r.entries, e.accountUri) + [e])]
  }

  /** `apply` (src/core/commit/Commit.ts:17), subclass by subclass. A transaction always
      applies: nothing checks that its entries sum to zero. */
  function Step(a: Action, s: Snapshot): (r: Result<Snapshot>)
    ensures a.TransactionAction? ==> r.Ok?
  {
    match a
    case OpenAction(u) => Activate(s, u, true)
    case CloseAction(u) => Activate(s, u, false)
    case TransactionAction(es) => Ok(Posted(s, es))
  }

  /** `getRawState` (src/core/commit/Commit.ts:12-15), with the entry's account found by its
      URI: the parent's state, or a new empty one at the root, with this commit applied. */
  function StateAt(arena: seq<Commit>, i: nat): (r: Result<Snapshot>)
    requires WellFormed(arena) && i < |arena|
    decreases i
  {
    var prev :- if arena[i].parent.None? then Ok(map[]) else StateAt(arena, arena[i].parent.value);
    Step(arena[i].action, prev)
  }

  /** Committing more never changes the state of a commit already made: a commit's state depends
      only on the commits up to it. */
  lemma {:induction false} StateAtPrefix(arena: seq<Commit>, more: seq<Commit>, i: nat)
    requires WellFormed(arena) && WellFormed(arena + more) && i < |arena|
    ensures StateAt(arena + more, i) == StateAt(arena, i)
    decreases i
  {
    assert (arena + more)[i] == arena[i];
    if arena[i].parent.Some? {
      StateAtPrefix(arena, more, arena[i].parent.value);
    }
  }

  /** A commit that fits at the end of a well-formed arena keeps it well-formed. */
  lemma Grown(arena: seq<Commit>, c: Commit)
    requires WellFormed(arena) && FitsAt(c, |arena|)
    ensures WellFormed(arena + [c])
  {
    forall i | 0 <= i < |arena| + 1 ensures FitsAt((arena + [c])[i], i) {
      if i < |arena| { assert (arena + [c])[i] == arena[i]; }
    }
  }

  /** The state of a commit added last: its action applied to its parent's state. */
  lemma StateAtLast(arena: seq<Commit>, c: Commit)
    requires WellFormed(arena) && FitsAt(c, |arena|) && WellFormed(arena + [c])
    ensures c.parent.None? ==> StateAt(arena + [c], |arena|) == Step(c.action, map[])
    ensures c.parent.Some? ==> StateAt(arena + [c], |arena|)
                               == (var before :- StateAt(arena, c.parent.value); Step(c.action, before))
  {
    assert (arena + [c])[|arena|] == c;
    if c.parent.Some? {
      StateAtPrefix(arena, [c], c.parent.value);
    }
  }

  /** A new `Open` or `Close` (src/core/commit/Open.ts:27-30, src/core/commit/Close.ts:27-30)
      added to a ledger is a commit the ledger can hold, and its state is the account with the
      normalised URI opened or closed in its parent's state, or in an empty state at the root. */
  lemma NewActivationReplays(lib: UriLib, arena: seq<Commit>, date: Date, account: AccountLike, parent: Option<nat>, open: bool)
    requires WellFormed(arena) && (parent.Some? ==> parent.value < |arena|)
    ensures var grown := arena + [NewActivation(lib, date, account, parent, open, |arena|)];
            && WellFormed(grown)
            && StateAt(grown, |arena|)
               == (if parent.None? then Activate(map[], GetUri(lib, account), open)
                   else if StateAt(arena, parent.value).Err? then Err(StateAt(arena, parent.value).error)
                   else Activate(StateAt(arena, parent.value).value, GetUri(lib, account), open))
  {
    var c := NewActivation(lib, date, account, parent, open, |arena|);
    var u := GetUri(lib, account);
    Grown(arena, c);
    StateAtLast(arena, c);
    ActivationStep(c.action, u, open);
  }

  /** Stepping an `Open` or `Close` of `u` is opening or closing `u`. */
  lemma ActivationStep(a: Action, u: string, open: bool)
    requires a == if open then OpenAction(u) else CloseAction(u)
    ensures forall s :: Step(a, s) == Activate(s, u, open)
  {
  }


  /** Posting a transaction appends to each account exactly the entries that name it, in
      order, after compacting what it had; accounts that no entry names keep their records. */
  lemma {:induction false} PostedRecords(s: Snapshot, es: seq<Entry>, v: string)
    ensures RecordAt(Posted(s, es), v) ==
              if Kept(es, v) == [] then RecordAt(s, v)
              else AccountRecord(RecordAt(s, v).active, Kept(RecordAt(s, v).entries, v) + Kept(es, v))
  {
    if es != [] {
      var init, e := es[..|es| - 1], es[|es| - 1];
      var t, r0 := Posted(s, init), RecordAt(s, v);
      PostedRecords(s, init, v);
      assert Posted(s, es) == Pushed(t, e);
      PushedAt(t, e, v);
      if e.accountUri == v {
        var before := Kept(r0.entries, v);
        assert Kept(es, v) == Kept(init, v) + [e];
        if Kept(init, v) != [] {
          KeptMerge(r0.entries, init, v);
          AppendAssoc(before, Kept(init, v), [e]);
          assert RecordAt(Posted(s, es), v) == AccountRecord(r0.active, (before + Kept(init, v)) + [e]);
        } else {
          assert RecordAt(Posted(s, es), v) == AccountRecord(r0.active, before + [e]);
        }
      } else {
        assert Kept(es, v) == Kept(init, v);
      }
    }
  }

  /** Pushing an entry changes the record of its own account only. */
  lemma PushedAt(t: Snapshot, e: Entry, v: string)
    ensures RecordAt(Pushed(t, e), v) ==
              if e.accountUri == v then AccountRecord(RecordAt(t, v).active, Kept(RecordAt(t, v).entries, v) + [e])
              else RecordAt(t, v)
  {
  }

  /** Compacting entries already compacted for the account keeps them all. */
  lemma KeptMerge(a: seq<Entry>, b: seq<Entry>, v: string)
    ensures Kept(Kept(a, v) + Kept(b, v), v) == Kept(a, v) + Kept(b, v)
  {
    KeptAppend(Kept(a, v), Kept(b, v), v);
    KeptTwice(a, v);
    KeptTwice(b, v);
  }


  /** A transaction files under every URI its entries name, and under no other new one. */
  lemma {:induction false} PostedKeys(s: Snapshot, es: seq<Entry>, v: string)
    ensures v in Posted(s, es) <==> v in s || Kept(es, v) != []
  {
    if es != [] {
      var init, e := es[..|es| - 1], es[|es| - 1];
      PostedKeys(s, init, v);
      if e.accountUri == v {
        assert Kept(es, v) == Kept(init, v) + [e];
      } else {
        assert Kept(es, v) == Kept(init, v);
      }
    }
  }

  /** Every account of the snapshot holds only entries that post to it. */
  ghost predicate Owned(s: Snapshot) {
    forall u, e :: u in s && e in s[u].entries ==> e.accountUri == u
  }

  lemma {:induction false} PostedOwned(s: Snapshot, es: seq<Entry>)
    requires Owned(s)
    ensures Owned(Posted(s, es))
  {
    if es != [] {
      var init, e := es[..|es| - 1], es[|es| - 1];
      PostedOwned(s, init);
      KeptMembers(RecordAt(Posted(s, init), e.accountUri).entries, e.accountUri);
    }
  }

  /** Replayed states hold each entry under the account it posts to, so the compaction that
      `open`, `close` and `push` perform never drops anything from them. */
  lemma {:induction false} ReplayOwned(arena: seq<Commit>, i: nat)
    requires WellFormed(arena) && i < |arena|
    ensures StateAt(arena, i).Ok? ==> Owned(StateAt(arena, i).value)
    decreases i
  {
    var prev := if arena[i].parent.None? then Ok(map[]) else StateAt(arena, arena[i].parent.value);
    if arena[i].parent.Some? {
      ReplayOwned(arena, arena[i].parent.value);
    }
    if prev.Ok? {
      match arena[i].action
      case OpenAction(u) =>
        KeptMembers(RecordAt(prev.value, u).entries, u);
      case CloseAction(u) =>
        KeptMembers(RecordAt(prev.value, u).entries, u);
      case TransactionAction(es) =>
        PostedOwned(prev.value, es);
    }
  }

  /** Opening or closing in a replayed state changes that account's flag and nothing else:
      every other account, and every entry list, stays as it was. */
  lemma ActivationOnlyFlips(arena: seq<Commit>, i: nat)
    requires WellFormed(arena) && i < |arena| && !arena[i].action.TransactionAction?
    requires arena[i].parent.Some? && StateAt(arena, arena[i].parent.value).Ok?
    ensures var prev := StateAt(arena, arena[i].parent.value).value;
            var u := arena[i].action.accountUri;
            StateAt(arena, i).Ok? ==>
              && StateAt(arena, i).value[u] == AccountRecord(arena[i].action.OpenAction?, RecordAt(prev, u).entries)
              && forall v :: v in prev && v != u ==> StateAt(arena, i).value[v] == prev[v]
  {
    ReplayOwned(arena, arena[i].parent.value);
  }

  // The commit path

  /** The commits from the root to `c`, each the parent of the next; none for no commit. */
  function PathFrom(arena: seq<Commit>, c: Option<nat>): (p: seq<nat>)
    requires WellFormed(arena) && (c.Some? ==> c.value < |arena|)
    ensures c.None? <==> p == []
    ensures forall k :: 0 <= k < |p| ==> p[k] < |arena|
    ensures c.Some? ==> p[|p| - 1] == c.value && arena[p[0]].parent.None?
    ensures forall k :: 0 <= k < |p| - 1 ==> arena[p[k + 1]].parent == Some(p[k])
    ensures forall k, l :: 0 <= k < l < |p| ==> p[k] < p[l]
    decreases if c.Some? then c.value + 1 else 0
  {
    if c.None? then [] else PathFrom(arena, arena[c.value].parent) + [c.value]
  }

  /** The path to commit i is the path to its parent, then i. */
  lemma PathPrefix(arena: seq<Commit>, i: nat, rest: seq<nat>)
    requires WellFormed(arena) && i < |arena|
    ensures PathFrom(arena, Some(i)) + rest == PathFrom(arena, arena[i].parent) + ([i] + rest)
  {
    var p := PathFrom(arena, arena[i].parent);
    assert PathFrom(arena, Some(i)) == p + [i];
    AppendAssoc(p, [i], rest);
  }

  /** `getCommitPath` (src/core/commit/Commit.ts:26-30): walks the parent links from the given
      commit, putting each in front. */
  method GetCommitPath(arena: seq<Commit>, c: Option<nat>) returns (path: seq<nat>)
    requires WellFormed(arena) && (c.Some? ==> c.value < |arena|)
    ensures path == PathFrom(arena, c)
  {
    path := [];
    var cur: Option<nat> := c;
    while cur.Some?
      invariant cur.Some? ==> cur.value < |arena|
      invariant PathFrom(arena, cur) + path == PathFrom(arena, c)
      decreases if cur.Some? then cur.value + 1 else 0
    {
      var i := cur.value;
      assert PathFrom(arena, cur) + path == PathFrom(arena, arena[i].parent) + ([i] + path) by {
        PathPrefix(arena, i, path);
      }
      path := [i] + path;
      cur := arena[i].parent;
    }
    assert PathFrom(arena, cur) + path == path;
  }

  /** Folding `apply` over a path, from a new empty state. */
  function Replay(arena: seq<Commit>, p: seq<nat>): Result<Snapshot>
    requires forall k :: 0 <= k < |p| ==> p[k] < |arena|
  {
    if p == [] then Ok(map[])
    else
      var prev :- Replay(arena, p[..|p| - 1]);
      Step(arena[p[|p| - 1]].action, prev)
  }

  /** A commit's state is `apply` folded over its path, root first. */
  lemma {:induction false} ReplayAlongPath(arena: seq<Commit>, i: nat)
    requires WellFormed(arena) && i < |arena|
    ensures StateAt(arena, i) == Replay(arena, PathFrom(arena, Some(i)))
    decreases i
  {
    var p := PathFrom(arena, Some(i));
    assert p[..|p| - 1] == PathFrom(arena, arena[i].parent);
    if arena[i].parent.Some? {
      ReplayAlongPath(arena, arena[i].parent.value);
    }
  }

  /** The replay follows the parent links only: two arenas that differ in dates alone give
      every commit the same state. */
  lemma {:induction false} DatesIrrelevant(arena: seq<Commit>, other: seq<Commit>, i: nat)
    requires WellFormed(arena) && WellFormed(other) && |arena| == |other| && i < |arena|
    requires forall k :: 0 <= k < |arena| ==> arena[k].parent == other[k].parent && arena[k].action == other[k].action
    ensures StateAt(arena, i) == StateAt(other, i)
    decreases i
  {
    if arena[i].parent.Some? {
      DatesIrrelevant(arena, other, arena[i].parent.value);
    }
  }

  /** A transaction applied to its parent's state, or to the empty state at the root, appends
      its entries to the accounts they name, in order, and leaves every other account as it was;
      the compaction on the way drops nothing. */
  lemma TransactionAppends(arena: seq<Commit>, i: nat, v: string)
    requires WellFormed(arena) && i < |arena| && arena[i].action.TransactionAction?
    requires arena[i].parent.Some? ==> StateAt(arena, arena[i].parent.value).Ok?
    ensures var prev := if arena[i].parent.None? then map[] else StateAt(arena, arena[i].parent.value).value;
            var es := arena[i].action.entries;
            && StateAt(arena, i).Ok?
            && (v in StateAt(arena, i).value <==> v in prev || Kept(es, v) != [])
            && RecordAt(StateAt(arena, i).value, v) == AccountRecord(RecordAt(prev, v).active, RecordAt(prev, v).entries + Kept(es, v))
  {
    var prev: Snapshot := if arena[i].parent.None? then map[] else StateAt(arena, arena[i].parent.value).value;
    var es := arena[i].action.entries;
    if arena[i].parent.Some? {
      ReplayOwned(arena, arena[i].parent.value);
    }
    PostedKeys(prev, es, v);
    PostedRecords(prev, es, v);
    KeptOwn(RecordAt(prev, v).entries, v);
  }

  // Replay, on state objects

  /** `get` then `open` or `close` (src/core/commit/Open.ts:22-23, src/core/commit/Close.ts:22-23)
      on a state whose accounts read as `s`: the account's entries are compacted, and it is
      refused, with the error of its kind, unless they are empty. Only the account under `u`
      is filed anew. */
  method ActivateIn(state: State, u: string, open: bool, ghost s: Snapshot) returns (o: Outcome)
    requires state.Valid() && state.Holds(s)
    modifies state, state.accounts.Values
    ensures state.Valid() && state.frozen == old(state.frozen)
    ensures var es := Kept(RecordAt(s, u).entries, u);
            && (o.Pass? <==> Empty(es))
            && (o.Fail? ==> o.error == PlainError(if open then OpenNotEmpty else CloseNotEmpty))
            && state.Holds(s[u := AccountRecord(if o.Pass? then open else RecordAt(s, u).active, es)])
    ensures u in state.accounts && state.accounts == old(state.accounts)[u := state.accounts[u]]
    ensures u in old(state.accounts) ==> state.accounts[u] == old(state.accounts)[u]
    ensures u !in old(state.accounts) ==> fresh(state.accounts[u])
  {
    var a := Fetch(state, u, s);
    o := Toggle(a, open);
    HeldWith(state, s, u, AccountRecord(if o.Pass? then open else RecordAt(s, u).active, Kept(RecordAt(s, u).entries, u)));
  }

  /** `open()` or `close()` on one account. */
  method Toggle(a: Account, open: bool) returns (o: Outcome)
    modifies a
    ensures a.entries == Kept(old(a.entries), a.uri)
    ensures o.Pass? <==> Empty(a.entries)
    ensures o.Fail? ==> o.error == PlainError(if open then OpenNotEmpty else CloseNotEmpty)
    ensures a.active == if o.Pass? then open else old(a.active)
  {
    if open {
      o := a.Open();
    } else {
      o := a.Close();
    }
  }

  /** `state.get(u)` on a state whose accounts read as `s`: the account found reads as the
      record `get` gives on the snapshot, and every other account still reads as `s` says. */
  method Fetch(state: State, u: string, ghost s: Snapshot) returns (a: Account)
    requires state.Valid() && state.Holds(s)
    modifies state
    ensures state.Valid() && state.frozen == old(state.frozen)
    ensures state.accounts == old(state.accounts)[u := a] && a.uri == u
    ensures u in old(state.accounts) ==> a == old(state.accounts)[u]
    ensures u !in old(state.accounts) ==> fresh(a)
    ensures a.active == RecordAt(s, u).active && a.entries == RecordAt(s, u).entries
    ensures state.accounts.Keys == s.Keys + {u}
    ensures forall v :: v in state.accounts && v != u ==>
              state.accounts[v].active == s[v].active && state.accounts[v].entries == s[v].entries
  {
    a := state.Get(u);
  }

  /** A state holds `s` with the record under `u` replaced once that account reads as the new
      record and every other account still reads as `s` says. */
  lemma HeldWith(state: State, s: Snapshot, u: string, r: AccountRecord)
    requires u in state.accounts && state.accounts[u].active == r.active && state.accounts[u].entries == r.entries
    requires state.accounts.Keys == s.Keys + {u}
    requires forall v :: v in state.accounts && v != u ==>
               state.accounts[v].active == s[v].active && state.accounts[v].entries == s[v].entries
    ensures state.Holds(s[u := r])
  {
  }

  /** `apply` of `Open` or `Close` (src/core/commit/Open.ts:20-25, src/core/commit/Close.ts:20-25)
      on a state whose accounts read as `s`: the change is made in a mutable copy that shares
      the accounts of `prev`. */
  method ApplyActivate(prev: State, u: string, open: bool, ghost s: Snapshot) returns (r: Result<State>)
    requires prev.Valid() && prev.Holds(s)
    modifies prev.accounts.Values
    ensures r.Err? ==> Activate(s, u, open) == Err(r.error)
    ensures r.Ok? ==> && Activate(s, u, open).Ok? && fresh(r.value) && r.value.Valid() && r.value.IsMutable()
                      && r.value.Holds(Activate(s, u, open).value)
                      && (forall v :: v in r.value.accounts ==> r.value.accounts[v] in prev.accounts.Values || fresh(r.value.accounts[v]))
    ensures r.Ok? ==> Shares(prev, r.value) && prev.HoldsPart(Activate(s, u, open).value)
    ensures r.Err? ==> prev.HoldsPart(Refused(s, u))
  {
    var state, o := CopyActivated(prev, u, open, s);
    ActivateAs(s, u, open);
    SharedHolds(prev, state, s[u := AccountRecord(if o.Pass? then open else RecordAt(s, u).active, Kept(RecordAt(s, u).entries, u))]);
    if o.Fail? {
      return Err(o.error);
    }
    r := Ok(state);
  }

  /** `getMutable` then `get` and `open`/`close` (src/core/commit/Open.ts:20-25): a mutable copy
      that shares the parent's accounts, with the account opened or closed in it. */
  method CopyActivated(prev: State, u: string, open: bool, ghost s: Snapshot) returns (state: State, o: Outcome)
    requires prev.Valid() && prev.Holds(s)
    modifies prev.accounts.Values
    ensures fresh(state) && state.Valid() && state.IsMutable() && Shares(prev, state)
    ensures forall v :: v in state.accounts ==> state.accounts[v] in prev.accounts.Values || fresh(state.accounts[v])
    ensures var es := Kept(RecordAt(s, u).entries, u);
            && (o.Pass? <==> Empty(es))
            && (o.Fail? ==> o.error == PlainError(if open then OpenNotEmpty else CloseNotEmpty))
            && state.Holds(s[u := AccountRecord(if o.Pass? then open else RecordAt(s, u).active, es)])
  {
    state := State.GetCopy(prev);
    o := ActivateIn(state, u, open, s);
  }

  /** Every account of `prev` is held, as the very same object, by `state`. */
  ghost predicate Shares(prev: State, state: State)
    reads prev, state
  {
    forall v :: v in prev.accounts ==> v in state.accounts && state.accounts[v] == prev.accounts[v]
  }

  /** The parent's accounts are the copy's, so they read as the copy does. */
  lemma SharedHolds(prev: State, state: State, t: Snapshot)
    requires Shares(prev, state) && state.Holds(t)
    ensures prev.HoldsPart(t)
  {
  }

  /** `state.get(...)` then `account.entries.push(entry)` (src/core/commit/Transaction.ts:46-48)
      on a state whose accounts read as `s`. */
  method PushOnto(state: State, e: Entry, ghost s: Snapshot)
    requires state.Valid() && state.Holds(s)
    modifies state, state.accounts.Values
    ensures state.Valid() && state.frozen == old(state.frozen) && state.Holds(Pushed(s, e))
    ensures var u := e.accountUri;
            && u in state.accounts && state.accounts == old(state.accounts)[u := state.accounts[u]]
            && (u in old(state.accounts) ==> state.accounts[u] == old(state.accounts)[u])
            && (u !in old(state.accounts) ==> fresh(state.accounts[u]))
  {
    var a := Fetch(state, e.accountUri, s);
    a.Push(e);
    HeldWith(state, s, e.accountUri, Pushed(s, e)[e.accountUri]);
  }

  /** One push of `ApplyTransaction`'s loop: the copy keeps sharing the parent's accounts and
      gains at most one new account. */
  method PushShared(prev: State, r: State, e: Entry, ghost posted: Snapshot)
    requires r.Valid() && r.IsMutable() && r.Holds(posted) && Shares(prev, r)
    modifies r, r.accounts.Values
    ensures r.Valid() && r.IsMutable() && r.Holds(Pushed(posted, e)) && Shares(prev, r)
    ensures forall v :: v in r.accounts ==> r.accounts[v] in old(r.accounts.Values) || fresh(r.accounts[v])
  {
    PushOnto(r, e, posted);
  }

  /** `apply` of a transaction (src/core/commit/Transaction.ts:44-51) on a state whose accounts
      read as `s`: each entry, in order, pushed in a mutable copy that shares the accounts of
      `prev`. */
  method ApplyTransaction(prev: State, es: seq<Entry>, ghost s: Snapshot) returns (r: State)
    requires prev.Valid() && prev.Holds(s)
    modifies prev.accounts.Values
    ensures fresh(r) && r.Valid() && r.IsMutable() && r.Holds(Posted(s, es))
    ensures forall v :: v in r.accounts ==> r.accounts[v] in prev.accounts.Values || fresh(r.accounts[v])
    ensures Shares(prev, r) && prev.HoldsPart(Posted(s, es))
  {
    r := State.GetCopy(prev);
    ghost var pool := prev.accounts.Values;
    ghost var posted := s;
    var i := 0;
    while i < |es|
      invariant i <= |es| && r.Valid() && r.IsMutable()
      invariant posted == Posted(s, es[..i]) && r.Holds(posted)
      invariant forall v :: v in r.accounts ==> r.accounts[v] in pool || fresh(r.accounts[v])
      invariant Shares(prev, r)
    {
      PushShared(prev, r, es[i], posted);
      PostedNext(s, es, i);
      posted := Pushed(posted, es[i]);
      i := i + 1;
    }
    assert es[..i] == es;
    assert pool == prev.accounts.Values;
    SharedHolds(prev, r, posted);
  }

  /** `apply`, dispatched on the kind of commit. */
  method Apply(prev: State, action: Action, ghost s: Snapshot) returns (r: Result<State>)
    requires prev.Valid() && prev.Holds(s)
    modifies prev.accounts.Values
    ensures r.Err? ==> Step(action, s) == Err(r.error)
    ensures r.Ok? ==> && Step(action, s).Ok? && fresh(r.value) && r.value.Valid() && r.value.IsMutable()
                      && r.value.Holds(Step(action, s).value)
                      && (forall v :: v in r.value.accounts ==> r.value.accounts[v] in prev.accounts.Values || fresh(r.value.accounts[v]))
    ensures r.Ok? ==> Shares(prev, r.value) && prev.HoldsPart(Step(action, s).value)
    ensures r.Err? ==> && !action.TransactionAction?
                       && prev.HoldsPart(Refused(s, action.accountUri))
  {
    match action
    case OpenAction(u) =>
      r := ApplyActivate(prev, u, true, s);
    case CloseAction(u) =>
      r := ApplyActivate(prev, u, false, s);
    case TransactionAction(es) =>
      var state := ApplyTransaction(prev, es, s);
      r := Ok(state);
  }

  /** `getRawState` (src/core/commit/Commit.ts:12-15) on state objects: the parent's raw state,
      or a new empty mutable state at the root, with this commit applied. Every account of the
      result was made by this replay. */
  method GetRawState(arena: seq<Commit>, i: nat) returns (r: Result<State>)
    requires WellFormed(arena) && i < |arena|
    ensures r.Err? ==> StateAt(arena, i) == Err(r.error)
    ensures r.Ok? ==> && StateAt(arena, i).Ok? && fresh(r.value) && r.value.Valid() && r.value.IsMutable()
                      && r.value.Holds(StateAt(arena, i).value)
                      && forall v :: v in r.value.accounts ==> fresh(r.value.accounts[v])
    decreases i
  {
    var prev: State;
    ghost var s: Snapshot;
    if arena[i].parent.None? {
      var root := State.New([], true);
      prev := root.value;
      s := map[];
    } else {
      var p := GetRawState(arena, arena[i].parent.value);
      if p.Err? {
        return p;
      }
      prev := p.value;
      s := StateAt(arena, arena[i].parent.value).value;
    }
    r := Apply(prev, arena[i].action, s);
  }

  /** The `state` getter (src/core/commit/Commit.ts:8-10): the raw state, saved, so frozen. */
  method GetState(arena: seq<Commit>, i: nat) returns (r: Result<State>)
    requires WellFormed(arena) && i < |arena|
    ensures r.Err? ==> StateAt(arena, i) == Err(r.error)
    ensures r.Ok? ==> && StateAt(arena, i).Ok? && fresh(r.value) && r.value.Valid() && !r.value.IsMutable()
                      && r.value.Holds(StateAt(arena, i).value)
  {
    r := GetRawState(arena, i);
    if r.Ok? {
      var saved := r.value.Save();
    }
  }

  /** The `account` getter of `Open` and `Close` (src/core/commit/Open.ts:9-11,
      src/core/commit/Close.ts:9-11): the account in the commit's own state, which the commit
      has just opened or closed. */
  function AccountOf(arena: seq<Commit>, i: nat): (r: Result<AccountRecord>)
    requires WellFormed(arena) && i < |arena| && !arena[i].action.TransactionAction?
    ensures r.Err? <==> StateAt(arena, i).Err?
    ensures r.Ok? ==> r.value.active == arena[i].action.OpenAction?
  {
    var s :- StateAt(arena, i);
    Ok(RecordAt(s, arena[i].action.accountUri))
  }

  // JSON

  /** The objects `toJSON` returns: `{action, account}` or `{action, entries}`. */
  datatype CommitJson =
    | AccountJson(action: string, account: string)
    | EntriesJson(action: string, entries: seq<EntryJson>)

  /** `toJSON` (src/core/commit/Open.ts:13-18, src/core/commit/Close.ts:13-18,
      src/core/commit/Transaction.ts:37-42): the kind of commit, then its account's URI or its
      entries in order, each naming its account and an amount that reads back as its own. */
  function CommitToJson(c: Commit): (j: CommitJson)
    ensures c.action.OpenAction? ==> j == AccountJson("open", c.action.accountUri)
    ensures c.action.CloseAction? ==> j == AccountJson("close", c.action.accountUri)
    ensures c.action.TransactionAction? ==>
              && j.EntriesJson? && j.action == "transaction" && |j.entries| == |c.action.entries|
              && forall k :: 0 <= k < |j.entries| ==>
                   && j.entries[k].account == c.action.entries[k].accountUri
                   && FromString(j.entries[k].amount) == Ok(AmountOfEntry(c.action.entries[k]))
  {
    match c.action
    case OpenAction(u) => AccountJson("open", u)
    case CloseAction(u) => AccountJson("close", u)
    case TransactionAction(es) =>
      EntriesJson("transaction", seq(|es|, k requires 0 <= k < |es| => ToJson(es[k])))
  }

  // The entry's account, as written

  /** `getRawState` as written: `apply` of a transaction asks each entry for `entry.account`,
      which reads `entry.transaction.state`, and so replays the transaction itself. `fuel`
      bounds how deep the evaluation goes; `None` is an evaluation that has not ended by then. */
  function RawStateAsWritten(arena: seq<Commit>, i: nat, fuel: nat): Option<Result<Snapshot>>
    requires WellFormed(arena) && i < |arena|
    decreases fuel, 0, 0
  {
    if fuel == 0 then None
    else
      var prev: Option<Result<Snapshot>> :=
        if arena[i].parent.None? then Some(Ok(map[])) else RawStateAsWritten(arena, arena[i].parent.value, fuel - 1);
      match prev
      case None => None
      case Some(Err(e)) => Some(Err(e))
      case Some(Ok(s)) =>
        match arena[i].action
        case TransactionAction(es) => PostedAsWritten(arena, s, es, fuel - 1)
        case _ => Some(Step(arena[i].action, s))
  }

  /** The loop of `apply` as written: `entry.account` first, then the push. */
  function PostedAsWritten(arena: seq<Commit>, s: Snapshot, es: seq<Entry>, fuel: nat): Option<Result<Snapshot>>
    requires WellFormed(arena) && forall k :: 0 <= k < |es| ==> es[k].transaction < |arena|
    decreases fuel, 1, |es|
  {
    if es == [] then Some(Ok(s))
    else match RawStateAsWritten(arena, es[0].transaction, fuel)
      case None => None
      case Some(Err(e)) => Some(Err(e))
      case Some(Ok(_)) => PostedAsWritten(arena, Pushed(s, es[0]), es[1..], fuel)
  }

  /** As written, a transaction with an entry never yields a state, however deep the evaluation
      is allowed to go: before its first push it needs its own state. */
  lemma {:induction false} TransactionNeverReplays(arena: seq<Commit>, i: nat, fuel: nat)
    requires WellFormed(arena) && i < |arena|
    requires arena[i].action.TransactionAction? && arena[i].action.entries != []
    ensures var r := RawStateAsWritten(arena, i, fuel); !(r.Some? && r.value.Ok?)
    decreases fuel
  {
    if fuel > 0 {
      assert FitsAt(arena[i], i);
      assert arena[i].action.entries[0] in arena[i].action.entries;
      TransactionNeverReplays(arena, i, fuel - 1);
    }
  }
}
