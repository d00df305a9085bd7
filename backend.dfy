/** The backend store the fragment model persists to (`./data`): fragment
    metadata records and fragment data, both keyed by (ownerId, id). Only its
    read/write/list/delete contract is modelled; the in-memory and networked
    implementations behind it are not part of this model. */
module Backend {
  import opened Wrappers

  newtype Byte = b: int | 0 <= b < 256

  /** A Node.js `Buffer`. */
  type Bytes = seq<Byte>

  datatype Key = Key(ownerId: string, id: string)

  /** A fragment's metadata as the store keeps it (the serialized fragment). */
  datatype Metadata = Metadata(
    id: string,
    ownerId: string,
    created: string,
    updated: string,
    contentType: string,
    size: nat)

  /** `writeFragment(fragment)` files a record under the fragment's own owner and id. */
  function KeyOf(m: Metadata): Key {
    Key(m.ownerId, m.id)
  }

  /** One write to the store, as recorded in its access log. */
  datatype Access = MetadataWrite(key: Key) | DataWrite(key: Key) | Removal(key: Key)

  predicate Distinct<T(==)>(s: seq<T>) {
    forall i, j :: 0 <= i < j < |s| ==> s[i] != s[j]
  }

  /** The ids of `ownerId`'s keys, in the order the keys are listed. */
  function IdsOf(keys: seq<Key>, ownerId: string): (ids: seq<string>)
    ensures forall id :: id in ids <==> Key(ownerId, id) in keys
    ensures Distinct(keys) ==> Distinct(ids)
  {
    if keys == [] then []
    else
      var rest := IdsOf(keys[1..], ownerId);
      assert forall id :: id in rest <==> Key(ownerId, id) in keys[1..];
      if keys[0].ownerId == ownerId then [keys[0].id] + rest
      else
        rest
  }

  /** `keys` with `k` taken out, the others in their order. */
  function Without(keys: seq<Key>, k: Key): (r: seq<Key>)
    ensures forall x :: x in r <==> x in keys && x != k
    ensures Distinct(keys) ==> Distinct(r)
  {
    if keys == [] then []
    else
      var rest := Without(keys[1..], k);
      assert Distinct(keys) ==> keys[0] !in keys[1..];
      if keys[0] == k then rest else [keys[0]] + rest
  }

  class Store {
    /** `readFragment`/`writeFragment`: metadata records. */
    var metadata: map<Key, Metadata>
    /** `readFragmentData`/`writeFragmentData`: raw fragment data. */
    var data: map<Key, Bytes>
    /** The order in which metadata keys were first written; listing follows it. */
    var order: seq<Key>
    /** Every write and delete, oldest first. */
    ghost var log: seq<Access>

    ghost predicate Valid()
      reads this
    {
      && Distinct(order)
      && (forall k :: k in order <==> k in metadata)
      && (forall k :: k in metadata ==> KeyOf(metadata[k]) == k)
    }

    constructor ()
      ensures Valid()
      ensures metadata == map[] && data == map[] && order == [] && log == []
    {
      metadata, data, order := map[], map[], [];
      log := [];
    }

    /** `writeFragment(fragment)`: a later read of the same owner and id returns the record. */
    method WriteFragment(m: Metadata)
      requires Valid()
      modifies this
      ensures Valid()
      ensures metadata == old(metadata)[KeyOf(m) := m] && data == old(data)
      ensures order == if KeyOf(m) in old(metadata) then old(order) else old(order) + [KeyOf(m)]
      ensures log == old(log) + [MetadataWrite(KeyOf(m))]
    {
      var k := KeyOf(m);
      if k !in metadata {
        order := order + [k];
      }
      metadata := metadata[k := m];
      log := log + [MetadataWrite(k)];
    }

    /** `readFragment(ownerId, id)`: the record, or nothing (`undefined`). */
    function ReadFragment(ownerId: string, id: string): (r: Option<Metadata>)
      reads this
      ensures r.None? <==> Key(ownerId, id) !in metadata
      ensures r.Some? ==> r.value == metadata[Key(ownerId, id)]
    {
      var k := Key(ownerId, id);
      if k in metadata then Some(metadata[k]) else None
    }

    /** `writeFragmentData(ownerId, id, buffer)`. */
    method WriteFragmentData(ownerId: string, id: string, bytes: Bytes)
      requires Valid()
      modifies this
      ensures Valid()
      ensures data == old(data)[Key(ownerId, id) := bytes]
      ensures metadata == old(metadata) && order == old(order)
      ensures log == old(log) + [DataWrite(Key(ownerId, id))]
    {
      data := data[Key(ownerId, id) := bytes];
      log := log + [DataWrite(Key(ownerId, id))];
    }

    /** `readFragmentData(ownerId, id)`: the data, or nothing (`undefined`). */
    function ReadFragmentData(ownerId: string, id: string): (r: Option<Bytes>)
      reads this
      ensures r.None? <==> Key(ownerId, id) !in data
      ensures r.Some? ==> r.value == data[Key(ownerId, id)]
    {
      var k := Key(ownerId, id);
      if k in data then Some(data[k]) else None
    }

    /** `listFragments(ownerId)`: the ids of exactly the owner's stored
        records, each once, in the order they were first written. */
    function ListFragments(ownerId: string): (ids: seq<string>)
      requires Valid()
      reads this
      ensures forall id :: id in ids <==> Key(ownerId, id) in metadata
      ensures Distinct(ids)
    {
      IdsOf(order, ownerId)
    }

    /** `deleteFragment(ownerId, id)`: removes both the record and the data. */
    method DeleteFragment(ownerId: string, id: string)
      requires Valid()
      modifies this
      ensures Valid()
      ensures metadata == old(metadata) - {Key(ownerId, id)}
      ensures data == old(data) - {Key(ownerId, id)}
      ensures order == Without(old(order), Key(ownerId, id))
      ensures log == old(log) + [Removal(Key(ownerId, id))]
    {
      var k := Key(ownerId, id);
      metadata := metadata - {k};
      data := data - {k};
      order := Without(order, k);
      log := log + [Removal(k)];
    }
  }
}
