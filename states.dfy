/** States (src/core/State.ts): the accounts of the ledger at one commit, keyed by URI. A plain
    `State` is frozen at construction; a `MutableState` stays open to changes until `save`.
    Both are one class here, told apart by the `frozen` flag. The accounts are `Account`
    objects, so a copy shares them with its original, as the source's shallow copy does. */
module States {
  import opened Wrappers
  import opened Entries
  import opened Accounts

  /** What the state reads of each account, as values: a snapshot of the ledger. */
  type Snapshot = map<string, AccountRecord>

  /** What `get` finds under a URI: the account there, or a new one, inactive and empty. */
  function RecordAt(s: Snapshot, u: string): AccountRecord {
    if u in s then s[u] else AccountRecord(false, [])
  }

  /** No two of the accounts have the same URI. */
  predicate DistinctUris(given: seq<Account>) {
    forall i, j :: 0 <= i < j < |given| ==> given[i].uri != given[j].uri
  }

  /** The map the constructor's loop fills from `given`: each account filed under its URI, a
      later one replacing an earlier one under the same URI. */
  function Filed(given: seq<Account>): (m: map<string, Account>)
    ensures forall i :: 0 <= i < |given| ==> given[i].uri in m
    ensures forall u :: u in m ==> m[u].uri == u
  {
    if given == [] then map[]
    else
      var last := given[|given| - 1];
      Filed(given[..|given| - 1])[last.uri := last]
  }

  /** Every URI filed is that of one of the accounts given. */
  lemma {:induction false} FiledFrom(given: seq<Account>, u: string)
    requires u in Filed(given)
    ensures exists j :: 0 <= j < |given| && given[j].uri == u
  {
    var last := given[|given| - 1];
    if u != last.uri {
      FiledFrom(given[..|given| - 1], u);
      var j :| 0 <= j < |given| - 1 && given[..|given| - 1][j].uri == u;
      assert given[j].uri == u;
    }
  }

  /** With distinct URIs no account replaces another: each is filed under its own URI. */
  lemma {:induction false} FiledDistinct(given: seq<Account>)
    requires DistinctUris(given)
    ensures forall i :: 0 <= i < |given| ==> Filed(given)[given[i].uri] == given[i]
  {
    if given != [] {
      var init := given[..|given| - 1];
      assert DistinctUris(init);
      FiledDistinct(init);
    }
  }

  class State {
    /** `accounts`, the `Map` from URI to account. */
    var accounts: map<string, Account>
    /** `Object.isFrozen(this)`. */
    var frozen: bool

    /** Every account is held under its own URI. */
    ghost predicate Valid()
      reads this
    {
      forall u :: u in accounts ==> accounts[u].uri == u
    }

    /** The state's accounts read as the snapshot `s`: the same URIs, and under each an
        account whose flag and entries are the recorded ones. */
    ghost predicate Holds(s: Snapshot)
      reads this, accounts.Values
    {
      && accounts.Keys == s.Keys
      && forall u :: u in accounts ==> accounts[u].active == s[u].active && accounts[u].entries == s[u].entries
    }

    /** Every account of the state reads as the snapshot `s` records it; `s` may record more
        accounts than the state holds. */
    ghost predicate HoldsPart(s: Snapshot)
      reads this, accounts.Values
    {
      forall u :: u in accounts ==> u in s && accounts[u].active == s[u].active && accounts[u].entries == s[u].entries
    }

    constructor Of(accounts: map<string, Account>, frozen: bool)
      ensures this.accounts == accounts && this.frozen == frozen
    {
      this.accounts := accounts;
      this.frozen := frozen;
    }

    /** The constructor (src/core/State.ts:10-19): files the accounts under their URIs in the
        order given and refuses a URI seen before; a plain `State` is then frozen, a
        `MutableState` is not. */
    static method New(given: seq<Account>, mutable: bool) returns (r: Result<State>)
      ensures r.Err? <==> !DistinctUris(given)
      ensures r.Err? ==> r.error == RangeError(DuplicateUri)
      ensures r.Ok? ==> && fresh(r.value) && r.value.Valid() && r.value.frozen == !mutable
                        && r.value.accounts == Filed(given)
                        && forall i :: 0 <= i < |given| ==> r.value.accounts[given[i].uri] == given[i]
    {
      var m: map<string, Account> := map[];
      var i := 0;
      while i < |given|
        invariant i <= |given| && m == Filed(given[..i])
        invariant forall j, k :: 0 <= j < k < i ==> given[j].uri != given[k].uri
      {
        var a := given[i];
        assert given[..i + 1][..i] == given[..i];
        if a.uri in m {
          FiledFrom(given[..i], a.uri);
          var j :| 0 <= j < i && given[..i][j].uri == a.uri;
          assert given[j].uri == given[i].uri;
          return Err(RangeError(DuplicateUri));
        }
        forall j | 0 <= j < i
          ensures given[j].uri != a.uri
        {
          assert given[..i][j] == given[j];
        }
        m := m[a.uri := a];
        i := i + 1;
      }
      assert given[..i] == given;
      FiledDistinct(given);
      var s := new State.Of(m, !mutable);
      return Ok(s);
    }

    /** `isMutable` (src/core/State.ts:6-8). */
    predicate IsMutable()
      reads this
    {
      !frozen
    }

    /** `save` (src/core/State.ts:25-28): freezes the state and returns the same object, whose
        accounts stay as they are. */
    method Save() returns (r: State)
      modifies this
      ensures r == this && !IsMutable()
      ensures accounts == old(accounts)
    {
      frozen := true;
      return this;
    }

    /** `getCopy` (src/core/State.ts:30-32): a new mutable state built from the accounts of
        `s`. The copy cannot hit the duplicate check, and it holds the very account objects of
        `s` under the same URIs. */
    static method GetCopy(s: State) returns (c: State)
      requires s.Valid()
      ensures fresh(c) && c.Valid() && c.IsMutable()
      ensures c.accounts == s.accounts
    {
      var m := s.accounts;
      var values: seq<Account> := [];
      var rest := m.Keys;
      while rest != {}
        invariant rest <= m.Keys && DistinctUris(values)
        invariant forall k :: 0 <= k < |values| ==> values[k].uri !in rest
        invariant Filed(values) == map u | u in m && u !in rest :: m[u]
        decreases rest
      {
        var u :| u in rest;
        values := values + [m[u]];
        rest := rest - {u};
      }
      var r := New(values, true);
      c := r.value;
    }

    /** `get` on a state: the account held under `uri`, or, when there is none, a new account
        named after its URI, inactive and empty, filed last. */
    method Get(uri: string) returns (a: Account)
      requires Valid()
      modifies this
      ensures Valid() && frozen == old(frozen)
      ensures accounts == old(accounts)[uri := a] && a.uri == uri
      ensures uri in old(accounts) ==> a == old(accounts)[uri]
      ensures uri !in old(accounts) ==> fresh(a) && a.name == uri && !a.active && a.entries == []
    {
      if uri in accounts {
        return accounts[uri];
      }
      a := new Account(uri, uri);
      accounts := accounts[uri := a];
    }
  }
}
