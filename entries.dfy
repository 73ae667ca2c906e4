/** Entries (src/core/Entry.ts): one posting of a value to an account, owned by the transaction
    that created it. An entry is a frozen record, so it is a datatype here; the transaction it
    belongs to is named by its index in the commit arena (module Commits). */
module Entries {
  import opened Wrappers
  import opened Amounts
  import opened AmountText
  import opened Commodities
  import opened Values

  /** `AccountLike` as an entry reads it: a URI string, or an object (an `Account`, or an
      `{uri, name}` record) of which only `uri` is read. */
  datatype AccountLike = UriText(text: string) | WithUri(uri: string, name: Option<string>)

  /** `EntryLike`: `{account, value}`, or `{account, amount, commodity}`. */
  datatype EntryLike =
    | WithValue(account: AccountLike, value: ValueLike)
    | Flat(account: AccountLike, amount: AmountLike, commodity: CommodityLike)

  /** `transaction`, `accountUri` and `value`. */
  datatype Entry = Entry(transaction: nat, accountUri: string, value: Value)

  /** `typeof account === 'string' ? account : account.uri`, taken as it is. */
  function UriOf(a: AccountLike): string {
    match a
    case UriText(s) => s
    case WithUri(uri, _) => uri
  }

  /** `'value' in entry ? entry.value : entry`: a flat object is itself an `{amount, commodity}`
      value. */
  function ValueOf(e: EntryLike): ValueLike {
    match e
    case WithValue(_, v) => v
    case Flat(_, amount, commodity) => Pair(amount, commodity)
  }

  /** `fromObject` (src/core/Entry.ts:45-56) over a given commodity registry state. */
  function EntryIn(cache: map<string, Commodity>, test: Matcher, rules: seq<Rule>, t: nat, e: EntryLike): (r: Result<Entry>)
    ensures r.Ok? ==> r.value.transaction == t
    ensures r.Ok? && e.account.UriText? ==> r.value.accountUri == e.account.text
    ensures r.Ok? && e.account.WithUri? ==> r.value.accountUri == e.account.uri
    ensures e.WithValue? && e.value.Given? ==> r.Ok? && r.value.value == e.value.value
    ensures e.Flat? && r.Ok? ==> ToAmount(e.amount).Ok? && SameValue(AmountOf(r.value.value), ToAmount(e.amount).value)
    ensures e.Flat? && e.commodity.Instance? && r.Ok? ==> r.value.value.commodity == e.commodity.commodity
  {
    var v :- ToValueIn(cache, test, rules, ValueOf(e));
    Ok(Entry(t, UriOf(e.account), v))
  }

  /** `fromObject` (src/core/Entry.ts:53-56) and the constructor (src/core/Entry.ts:45-51):
      the value goes through `toValue`, which may resolve a commodity name. */
  method FromObject(reg: Registry, t: nat, e: EntryLike) returns (r: Result<Entry>)
    requires reg.Valid()
    modifies reg
    ensures reg.Valid() && reg.units == old(reg.units)
    ensures r == EntryIn(old(reg.instances), reg.test, reg.units, t, e)
    ensures reg.instances == CacheAfter(old(reg.instances), reg.test, reg.units, ValueOf(e))
  {
    var v := ToValue(reg, ValueOf(e));
    if v.Err? {
      return Err(v.error);
    }
    return Ok(Entry(t, UriOf(e.account), v.value));
  }

  /** The `amount` getter (src/core/Entry.ts:29-31). */
  function AmountOfEntry(e: Entry): Amount {
    AmountOf(e.value)
  }

  /** The `commodity` getter (src/core/Entry.ts:33-35). */
  function CommodityOfEntry(e: Entry): Commodity {
    e.value.commodity
  }

  /** The object `toJSON` returns. */
  datatype EntryJson = EntryJson(account: string, amount: string, commodity: string)

  /** `toJSON` (src/core/Entry.ts:37-43): the URI as stored, the amount in scientific
      notation, which reads back as the same amount, and the commodity's name. */
  function ToJson(e: Entry): (j: EntryJson)
    ensures j.account == e.accountUri
    ensures FromString(j.amount) == Ok(AmountOfEntry(e))
    ensures j.commodity == CommodityOfEntry(e).name
  {
    ScientificRoundTrip(AmountOfEntry(e));
    EntryJson(e.accountUri, ToScientificString(AmountOfEntry(e)), CommodityOfEntry(e).name)
  }

  /** Reading the JSON form back as a flat entry of the same transaction gives the entry again,
      when the commodity's grain is not zero and its name resolves to it. */
  lemma JsonRoundTrip(cache: map<string, Commodity>, test: Matcher, rules: seq<Rule>, e: Entry)
    requires Signed(e.value.commodity.unit) != 0
    requires e.value.commodity.name in cache && cache[e.value.commodity.name] == e.value.commodity
    ensures var j := ToJson(e);
            EntryIn(cache, test, rules, e.transaction, Flat(UriText(j.account), Text(j.amount), ByName(j.commodity))) == Ok(e)
  {
    ScientificConstructs(cache, test, rules, e.value);
  }
}
