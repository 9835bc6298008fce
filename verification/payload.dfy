/** The opaque key/value bag attached to a session (the `setData`/`getData` half of the
    `TDriver` trait). The bag is stored as JSON text; the model keeps the decoded map and
    leaves the JSON text format out. */
module Payload {
  import opened Outcomes
  import Text

  /** A scalar stored in the bag. Nested arrays are not modelled. */
  datatype Value = Null | Bool(b: bool) | Int(i: int) | Str(s: string)

  type Bag = map<string, Value>

  /** What the backend stores in the `data` column or hash field: either plain text that is
      not the JSON encoding of an object (the empty string the backends start with, or
      anything undecodable), or the encoding of a bag. */
  datatype Blob = Text(s: string) | Encoded(bag: Bag)

  /** What `getData` hands back: one value, or the whole bag. */
  datatype Read = One(value: Value) | Whole(bag: Bag)

  /** `json_encode` of a bag. */
  function Encode(bag: Bag): Blob
  {
    Encoded(bag)
  }

  /** `json_decode(raw, true) ?: []`: a missing payload (`null`) or one that does not decode
      to a non-empty array reads as the empty bag. */
  function Decode(raw: Option<Blob>): (bag: Bag)
    ensures raw.Some? && raw.value.Encoded? ==> bag == raw.value.bag
    ensures raw.None? || raw.value.Text? ==> bag == map[]
  {
    match raw
    case Some(Encoded(bag)) => bag
    case _ => map[]
  }

  /** The lookup at the heart of `getData($key)`: a truthy key whose value is set and not
      null yields that value; every other call yields the whole bag. */
  function Get(bag: Bag, key: Option<string>): (r: Read)
    ensures r.One? <==> key.Some? && Text.Truthy(key.value) && key.value in bag && bag[key.value] != Null
    ensures r.One? ==> r.value == bag[key.value]
    ensures r.Whole? ==> r.bag == bag
  {
    if key.Some? && Text.Truthy(key.value) && key.value in bag && bag[key.value] != Null then
      One(bag[key.value])
    else
      Whole(bag)
  }

  /** `arrayExtend($data, [$key => $value])` on a flat bag: a right-biased override. */
  function Merge(bag: Bag, key: string, value: Value): (r: Bag)
    ensures r.Keys == bag.Keys + {key}
    ensures r[key] == value
    ensures forall k :: k in bag && k != key ==> r[k] == bag[k]
  {
    bag[key := value]
  }

  /** The text `setData` hands to `saveData`: the whole stored bag with one key overridden. */
  function Updated(raw: Option<Blob>, key: string, value: Value): Blob
  {
    Encode(Merge(Decode(raw), key, value))
  }

  /** Encoding a bag and decoding it again gives the bag back. */
  lemma DecodeEncode(bag: Bag)
    ensures Decode(Some(Encode(bag))) == bag
  {
  }

  /** Reading back the payload `setData` writes yields the value just stored under a truthy
      key, unless that value is null. */
  lemma GetUpdated(raw: Option<Blob>, key: string, value: Value)
    ensures Get(Decode(Some(Updated(raw, key, value))), Some(key))
            == (if Text.Truthy(key) && value != Null then One(value) else Whole(Merge(Decode(raw), key, value)))
  {
  }

  /** A later write to the same key wins, and writes to distinct keys commute. */
  lemma MergeOrder(bag: Bag, k1: string, v1: Value, k2: string, v2: Value)
    ensures k1 == k2 ==> Merge(Merge(bag, k1, v1), k2, v2) == Merge(bag, k2, v2)
    ensures k1 != k2 ==> Merge(Merge(bag, k1, v1), k2, v2) == Merge(Merge(bag, k2, v2), k1, v1)
  {
  }
}
