/**
 * The parts of the Contacts module the shared-contacts hooks talk to, as plain
 * values: the contact store keyed by UUID, and the `$AND` filter format that
 * the contact queries accept.
 */
module Contacts {
  import opened Wrappers
  import opened PhpArrays

  /** A contact: its `Storage` property and every other property, untouched by the hooks. */
  datatype Contact = Contact(storage: string, properties: map<string, Value>)

  /** The contacts reachable through `GetContact`, keyed by UUID. */
  type Store = map<string, Contact>

  /** `GetContact($sUUID)`: the stored contact, or nothing (also for a UUID that is not a string). */
  function GetContact(store: Store, uuid: Value): (r: Option<Contact>)
    ensures r.Some? <==> uuid.Str? && uuid.s in store
    ensures r.Some? ==> r.value == store[uuid.s]
  {
    if uuid.Str? && uuid.s in store then Some(store[uuid.s]) else None
  }

  /** `UpdateContact($oContact->toArray())`: the contact's array form carries its UUID, so it lands there. */
  function UpdateContact(store: Store, uuid: string, c: Contact): (r: Store)
    ensures r.Keys == store.Keys + {uuid}
    ensures r[uuid] == c
    ensures forall k :: k in store && k != uuid ==> r[k] == store[k]
  {
    store[uuid := c]
  }

  /** One comparison of a `$AND` block: `field => [value, op]`. */
  datatype Condition = Condition(field: string, value: Value, op: string)

  /** The `[value, op]` pair a condition is written as. */
  function EncodeOperand(c: Condition): Value
  {
    Arr(List([c.value, Str(c.op)]))
  }

  function EncodeConditions(cs: seq<Condition>): (es: seq<Entry>)
    ensures |es| == |cs|
    ensures forall i :: 0 <= i < |cs| ==> es[i] == Entry(StrKey(cs[i].field), EncodeOperand(cs[i]))
  {
    if |cs| == 0 then [] else [Entry(StrKey(cs[0].field), EncodeOperand(cs[0]))] + EncodeConditions(cs[1..])
  }

  /** `['$AND' => [field => [value, op], ...]]`. */
  function EncodeAnd(cs: seq<Condition>): Value
  {
    Arr([Entry(StrKey("$AND"), Arr(EncodeConditions(cs)))])
  }

  /** Reads a `[value, op]` pair back, if the value has exactly that shape. */
  function DecodeOperand(field: string, v: Value): (r: Option<Condition>)
    ensures r.Some? ==> r.value.field == field && EncodeOperand(r.value) == v
  {
    if v.Arr? && |v.entries| == 2
       && v.entries[0].key == IntKey(0) && v.entries[1].key == IntKey(1) && v.entries[1].val.Str?
    then Some(Condition(field, v.entries[0].val, v.entries[1].val.s))
    else None
  }

  function DecodeConditions(es: seq<Entry>): (r: Option<seq<Condition>>)
    ensures r.Some? ==> |r.value| == |es| && EncodeConditions(r.value) == es
  {
    if |es| == 0 then Some([])
    else if !es[0].key.StrKey? then None
    else match (DecodeOperand(es[0].key.s, es[0].val), DecodeConditions(es[1..]))
      case (Some(c), Some(cs)) =>
        assert EncodeConditions([c] + cs) == [Entry(StrKey(c.field), EncodeOperand(c))] + EncodeConditions(cs) by {
          assert ([c] + cs)[1..] == cs;
        }
        assert es == [es[0]] + es[1..];
        Some([c] + cs)
      case _ => None
  }

  /** The conditions of a filter that is a single `$AND` block, or nothing if it has another shape. */
  function DecodeAnd(f: Value): (r: Option<seq<Condition>>)
    ensures r.Some? ==> EncodeAnd(r.value) == f
  {
    if f.Arr? && |f.entries| == 1 && f.entries[0].key == StrKey("$AND") && f.entries[0].val.Arr?
    then DecodeConditions(f.entries[0].val.entries)
    else None
  }

  lemma {:induction false} DecodeEncodeConditions(cs: seq<Condition>)
    ensures DecodeConditions(EncodeConditions(cs)) == Some(cs)
  {
    if |cs| > 0 {
      var es := EncodeConditions(cs);
      assert es[0] == Entry(StrKey(cs[0].field), EncodeOperand(cs[0]));
      assert es[1..] == EncodeConditions(cs[1..]);
      DecodeEncodeConditions(cs[1..]);
      assert cs == [cs[0]] + cs[1..];
    }
  }

  /** Every `$AND` filter reads back as the conditions it was written from. */
  lemma DecodeEncodeAnd(cs: seq<Condition>)
    ensures DecodeAnd(EncodeAnd(cs)) == Some(cs)
  {
    DecodeEncodeConditions(cs);
  }
}
