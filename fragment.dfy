/** The fragment model (`src/model/fragment.js`): a typed, owner-scoped blob
    whose metadata and data live in the backend store, its validation, the
    registry lookups, and type-gated conversion of its data.

    Values the source draws from the environment are parameters here:
    `freshId` is what `randomUUID()` returned, `now` (and, in the
    constructor, which reads the clock twice, `createdNow` and `updatedNow`)
    what `new Date().toISOString()` returned, `render` is markdown-it's `md.render`
    and `toText` is `Buffer.prototype.toString`. A JavaScript string argument
    that is `undefined` or empty (both falsy) is written "". */
module Fragments {
  import opened Wrappers
  import opened MediaType
  import opened Backend

  /** The errors the model throws, one per distinct `throw` in the source. */
  datatype Error =
    | OwnerRequired    // 'ownerId is required.'
    | UnsupportedType  // 'Invalid or unsupported type.'
    | InvalidSize      // 'Invalid size.'
    | NotABuffer       // 'Data should be a Buffer'
    | NotFound         // 'fragment does not exist for this user'

  /** The `size` constructor argument: absent, a number, or anything else. */
  datatype SizeArg = DefaultSize | Number(n: int) | NotANumber

  /** The object the constructor is called with. */
  datatype FragmentInput = FragmentInput(
    id: string,
    ownerId: string,
    created: string,
    updated: string,
    contentType: string,
    size: SizeArg)

  /** The argument of `setData`: a `Buffer`, or any other value. */
  datatype Payload = Buffer(bytes: Bytes) | NotBuffer

  /** `Fragment.byUser`: ids, or the fragments themselves when expanded. */
  datatype Listing = Ids(ids: seq<string>) | Expanded(fragments: seq<Metadata>)

  /** What `convertData` resolves to. */
  datatype Converted =
    | NotConvertible            // undefined: the target is not one of the fragment's formats
    | Rendered(html: string)    // the markdown source rendered as HTML
    | Unchanged(data: Option<Bytes>)  // the stored data as read (None: undefined, nothing stored)
    | NoSourceData              // markdown to HTML with nothing stored: `data.toString()` throws

  /** `Promise.all`: every value when every result is one, otherwise the
      error of the first failing result. */
  function All<T, E>(rs: seq<Result<T, E>>): (r: Result<seq<T>, E>)
    ensures r.Ok? <==> forall i :: 0 <= i < |rs| ==> rs[i].Ok?
    ensures r.Ok? ==> |r.value| == |rs| && forall i :: 0 <= i < |rs| ==> rs[i] == Ok(r.value[i])
    ensures r.Err? ==> exists i :: 0 <= i < |rs| && rs[i] == Err(r.error)
  {
    if rs == [] then Ok([])
    else if rs[0].Err? then Err(rs[0].error)
    else
      var rest := All(rs[1..]);
      assert forall i :: 1 <= i < |rs| ==> rs[i] == rs[1..][i - 1];
      if rest.Err? then Err(rest.error) else Ok([rs[0].value] + rest.value)
  }

  /** A record the constructor accepts and keeps: an owner, an id and a supported type. */
  predicate ValidRecord(m: Metadata) {
    m.id != "" && m.ownerId != "" && IsSupportedType(m.contentType)
  }

  /** Every record in the store is one a fragment could have saved. */
  ghost predicate Consistent(store: Store)
    reads store
  {
    && store.Valid()
    && forall k :: k in store.metadata ==> ValidRecord(store.metadata[k])
  }

  /** The size argument passes `typeof size !== 'number' || size < 0`. */
  predicate SizeAccepted(size: SizeArg) {
    match size
    case DefaultSize => true
    case Number(n) => n >= 0
    case NotANumber => false
  }

  /** The checks and defaults of the constructor. The owner is checked first,
      then the type, then the size; the id and the timestamps given are kept and
      only missing ones are generated, each timestamp from its own clock
      reading. `randomUUID()` never yields "". */
  function Construct(input: FragmentInput, freshId: string, createdNow: string, updatedNow: string): (r: Result<Metadata, Error>)
    requires freshId != ""
    ensures input.ownerId == "" ==> r == Err(OwnerRequired)
    ensures input.ownerId != "" && !IsSupportedType(input.contentType) ==> r == Err(UnsupportedType)
    ensures input.ownerId != "" && IsSupportedType(input.contentType) && !SizeAccepted(input.size) ==> r == Err(InvalidSize)
    ensures r.Ok? <==> input.ownerId != "" && IsSupportedType(input.contentType) && SizeAccepted(input.size)
    ensures r.Ok? ==> ValidRecord(r.value)
    ensures r.Ok? ==> r.value.ownerId == input.ownerId && r.value.contentType == input.contentType
    ensures r.Ok? ==> r.value.id == (if input.id != "" then input.id else freshId)
    ensures r.Ok? ==> r.value.created == (if input.created != "" then input.created else createdNow)
    ensures r.Ok? ==> r.value.updated == (if input.updated != "" then input.updated else updatedNow)
    ensures r.Ok? ==> r.value.size == (if input.size.Number? then input.size.n else 0)
  {
    if input.ownerId == "" then Err(OwnerRequired)
    // `!type ||` adds nothing: the empty type is not supported.
    else if !IsSupportedType(input.contentType) then Err(UnsupportedType)
    else if !SizeAccepted(input.size) then Err(InvalidSize)
    else
      Ok(Metadata(
        if input.id != "" then input.id else freshId,
        input.ownerId,
        if input.created != "" then input.created else createdNow,
        if input.updated != "" then input.updated else updatedNow,
        input.contentType,
        if input.size.Number? then input.size.n else 0))
  }

  /** A fragment built from just an owner and a type gets the generated id, a
      size of 0, and the constructor's first clock reading as `created` and its
      second as `updated`; the two readings may differ. */
  lemma ConstructDefaults(ownerId: string, contentType: string, freshId: string, createdNow: string, updatedNow: string)
    requires ownerId != "" && IsSupportedType(contentType) && freshId != ""
    ensures Construct(FragmentInput("", ownerId, "", "", contentType, DefaultSize), freshId, createdNow, updatedNow)
         == Ok(Metadata(freshId, ownerId, createdNow, updatedNow, contentType, 0))
  {
  }

  class Fragment {
    var id: string
    var ownerId: string
    var created: string
    var updated: string
    var contentType: string
    var size: nat

    /** The fragment as `writeFragment` stores it. */
    function Record(): (m: Metadata)
      reads this
      ensures KeyOf(m) == Key(ownerId, id)
    {
      Metadata(id, ownerId, created, updated, contentType, size)
    }

    ghost predicate Valid()
      reads this
    {
      ValidRecord(Record())
    }

    /** The field assignments of the constructor, once its checks have passed. */
    constructor FromRecord(m: Metadata)
      requires ValidRecord(m)
      ensures Valid() && Record() == m
    {
      id, ownerId, created, updated := m.id, m.ownerId, m.created, m.updated;
      contentType, size := m.contentType, m.size;
    }

    /** `new Fragment(input)`: throws what `Construct` rejects, otherwise a new
        fragment holding exactly the record `Construct` produced. */
    static method New(input: FragmentInput, freshId: string, createdNow: string, updatedNow: string) returns (r: Result<Fragment, Error>)
      requires freshId != ""
      ensures Construct(input, freshId, createdNow, updatedNow).Err? ==> r == Err(Construct(input, freshId, createdNow, updatedNow).error)
      ensures Construct(input, freshId, createdNow, updatedNow).Ok? ==>
        r.Ok? && fresh(r.value) && r.value.Valid() && r.value.Record() == Construct(input, freshId, createdNow, updatedNow).value
    {
      var m := Construct(input, freshId, createdNow, updatedNow);
      if m.Err? {
        return Err(m.error);
      }
      var f := new Fragment.FromRecord(m.value);
      return Ok(f);
    }

    /** `mimeType`: the type without its parameters, one of the supported four. */
    function MimeType(): (t: string)
      reads this
      ensures ';' !in t && IsTrimmed(t)
      ensures Valid() ==> t in ValidTypes
    {
      ParseType(contentType)
    }

    /** `isText`: the media type starts with "text/", which among the supported
        types is every one but JSON. */
    predicate IsText()
      reads this
      ensures Valid() ==> (IsText() <==> MimeType() != ApplicationJson)
    {
      TextTypes();
      |MimeType()| >= 5 && MimeType()[..5] == "text/"
    }

    /** `formats`: the row of the conversion table for this fragment's media
        type; it starts with that type and ends with plain text. */
    function Formats(): (r: seq<string>)
      reads this
      ensures Valid() ==> r != [] && r[0] == MimeType() && r[|r| - 1] == TextPlain
      ensures forall f :: f in r ==> f in ValidTypes
    {
      FormatsOf(MimeType())
    }

    /** `getData()`: this fragment's data in the store, if any. */
    function GetData(store: Store): (r: Option<Bytes>)
      reads this, store
      ensures r.Some? <==> Key(ownerId, id) in store.data
      ensures r.Some? ==> r.value == store.data[Key(ownerId, id)]
    {
      store.ReadFragmentData(ownerId, id)
    }

    /** `save()`: stamps `updated` and writes the metadata record. */
    method Save(store: Store, now: string)
      requires Valid() && store.Valid()
      modifies this`updated, store
      ensures Valid() && store.Valid()
      ensures updated == now
      ensures store.metadata == old(store.metadata)[Key(ownerId, id) := Record()]
      ensures store.data == old(store.data)
      ensures store.order == if Key(ownerId, id) in old(store.metadata) then old(store.order)
                             else old(store.order) + [Key(ownerId, id)]
      ensures store.log == old(store.log) + [MetadataWrite(Key(ownerId, id))]
      ensures old(Consistent(store)) ==> Consistent(store)
    {
      updated := now;
      store.WriteFragment(Record());
    }

    /** `setData(data)`: anything but a Buffer is rejected before anything
        changes; a Buffer sets `size` to its length, is written as the data, and
        only then is the metadata saved. Afterwards the data reads back as the
        Buffer and the stored size is its length. */
    method SetData(store: Store, payload: Payload, now: string) returns (r: Outcome<Error>)
      requires Valid() && store.Valid()
      modifies this`size, this`updated, store
      ensures Valid() && store.Valid()
      ensures payload.NotBuffer? ==>
        r == Fail(NotABuffer) && size == old(size) && updated == old(updated) && unchanged(store)
      ensures payload.Buffer? ==>
        && r == Pass
        && size == |payload.bytes| && updated == now
        && store.data == old(store.data)[Key(ownerId, id) := payload.bytes]
        && store.metadata == old(store.metadata)[Key(ownerId, id) := Record()]
        && store.order == (if Key(ownerId, id) in old(store.metadata) then old(store.order)
                           else old(store.order) + [Key(ownerId, id)])
        && store.log == old(store.log) + [DataWrite(Key(ownerId, id))] + [MetadataWrite(Key(ownerId, id))]
      ensures payload.Buffer? ==>
        GetData(store) == Some(payload.bytes) && store.metadata[Key(ownerId, id)].size == |payload.bytes|
      ensures old(Consistent(store)) ==> Consistent(store)
    {
      if payload.NotBuffer? {
        return Fail(NotABuffer);
      }
      ghost var wasConsistent := Consistent(store);
      size := |payload.bytes|;
      updated := now;
      assert Valid();
      store.WriteFragmentData(ownerId, id, payload.bytes);
      assert wasConsistent ==> Consistent(store);
      Save(store, now);
      return Pass;
    }

    /** `convertData(convertTo)`: nothing unless `convertTo` is one of the
        fragment's formats (which are all supported types, so the support check
        decides nothing more); markdown asked for as HTML is rendered; every
        other allowed target gets the stored data as it is. */
    function ConvertData(store: Store, convertTo: string, toText: Bytes -> string, render: string -> string): (r: Converted)
      reads this, store
      ensures r.NotConvertible? <==> convertTo !in Formats()
      ensures r.Rendered? || r.NoSourceData? <==>
        convertTo in Formats() && MimeType() == TextMarkdown && convertTo == TextHtml
      ensures r.Rendered? ==> GetData(store).Some? && r.html == render(toText(GetData(store).value))
      ensures r.NoSourceData? ==> GetData(store).None?
      ensures r.Unchanged? ==> r.data == GetData(store)
    {
      SupportedTypeIsBare(convertTo);
      if IsSupportedType(convertTo) && convertTo in Formats() then
        var data := GetData(store);
        if MimeType() == TextMarkdown && convertTo == TextHtml then
          if data.Some? then Rendered(render(toText(data.value))) else NoSourceData
        else
          Unchanged(data)
      else
        NotConvertible
    }

    /** `Fragment.byId(ownerId, id)`: not found when no record is stored;
        otherwise the record is rebuilt through the constructor (so a record
        the constructor would reject is an error) and the stored timestamps
        are put back, nothing being stamped anew. */
    static function ById(store: Store, ownerId: string, id: string, freshId: string): (r: Result<Metadata, Error>)
      requires freshId != ""
      reads store
      ensures r == Err(NotFound) <==> Key(ownerId, id) !in store.metadata
      ensures Key(ownerId, id) in store.metadata ==>
        var m := store.metadata[Key(ownerId, id)];
        && (r.Ok? <==> m.ownerId != "" && IsSupportedType(m.contentType))
        && (m.ownerId == "" ==> r == Err(OwnerRequired))
        && (m.ownerId != "" && !IsSupportedType(m.contentType) ==> r == Err(UnsupportedType))
      ensures r.Ok? ==>
        var m := store.metadata[Key(ownerId, id)];
        && ValidRecord(r.value)
        && r.value.ownerId == m.ownerId && r.value.contentType == m.contentType && r.value.size == m.size
        && r.value.created == m.created && r.value.updated == m.updated
        && (m.id != "" ==> r.value.id == m.id)
    {
      match store.ReadFragment(ownerId, id)
      case None => Err(NotFound)
      case Some(m) =>
        // The constructor's own clock readings are overwritten at once.
        var rebuilt :- Construct(FragmentInput(m.id, m.ownerId, "", "", m.contentType, Number(m.size)), freshId, m.created, m.updated);
        Ok(rebuilt.(created := m.created, updated := m.updated))
    }

    /** `ids.map((id) => Fragment.byId(ownerId, id))`: one lookup per id, in order. */
    static function LookUpAll(store: Store, ownerId: string, ids: seq<string>, freshId: string): (rs: seq<Result<Metadata, Error>>)
      requires freshId != ""
      reads store
      ensures |rs| == |ids|
      ensures forall i :: 0 <= i < |ids| ==> rs[i] == ById(store, ownerId, ids[i], freshId)
    {
      if ids == [] then []
      else [ById(store, ownerId, ids[0], freshId)] + LookUpAll(store, ownerId, ids[1..], freshId)
    }

    /** `Fragment.byUser(ownerId, expand)`: the store's id list as it is, or
        one fragment per listed id, in the same order. */
    static function ByUser(store: Store, ownerId: string, expand: bool, freshId: string): (r: Result<Listing, Error>)
      requires store.Valid() && freshId != ""
      reads store
      ensures !expand ==> r == Ok(Ids(store.ListFragments(ownerId)))
      ensures expand && r.Ok? ==>
        var ids := store.ListFragments(ownerId);
        && r.value.Expanded?
        && |r.value.fragments| == |ids|
        && forall i :: 0 <= i < |ids| ==> ById(store, ownerId, ids[i], freshId) == Ok(r.value.fragments[i])
      ensures expand ==>
        var ids := store.ListFragments(ownerId);
        && (r.Ok? <==> forall i :: 0 <= i < |ids| ==> ById(store, ownerId, ids[i], freshId).Ok?)
        && (r.Err? ==> exists i :: 0 <= i < |ids| && ById(store, ownerId, ids[i], freshId) == Err(r.error))
    {
      var ids := store.ListFragments(ownerId);
      if expand then
        var fragments :- All(LookUpAll(store, ownerId, ids, freshId));
        Ok(Expanded(fragments))
      else
        Ok(Ids(ids))
    }

    /** `Fragment.delete(ownerId, id)`: afterwards neither the record nor the
        data of that fragment is stored, so `byId` of the pair is not found
        whatever id would be generated; nothing else changes. */
    static method Delete(store: Store, ownerId: string, id: string)
      requires store.Valid()
      modifies store
      ensures store.Valid()
      ensures store.metadata == old(store.metadata) - {Key(ownerId, id)}
      ensures store.data == old(store.data) - {Key(ownerId, id)}
      ensures store.order == Without(old(store.order), Key(ownerId, id))
      ensures store.log == old(store.log) + [Removal(Key(ownerId, id))]
      ensures store.ReadFragment(ownerId, id) == None && store.ReadFragmentData(ownerId, id) == None
      ensures forall g :: g != "" ==> Fragment.ById(store, ownerId, id, g) == Err(NotFound)
      ensures old(Consistent(store)) ==> Consistent(store)
    {
      store.DeleteFragment(ownerId, id);
    }
  }

  /** A stored record the constructor accepts as it is comes back from
      `byId` exactly as stored. */
  lemma ByIdReturnsStored(store: Store, ownerId: string, id: string, freshId: string)
    requires freshId != ""
    requires Key(ownerId, id) in store.metadata && ValidRecord(store.metadata[Key(ownerId, id)])
    ensures Fragment.ById(store, ownerId, id, freshId) == Ok(store.metadata[Key(ownerId, id)])
  {
  }

  /** In a consistent store, the expanded listing never fails and holds, for
      each listed id in order, the stored record of that id. */
  lemma ByUserExpandedMatchesIds(store: Store, ownerId: string, freshId: string)
    requires Consistent(store) && freshId != ""
    ensures
      var ids := store.ListFragments(ownerId);
      var r := Fragment.ByUser(store, ownerId, true, freshId);
      && r.Ok? && r.value.Expanded? && |r.value.fragments| == |ids|
      && forall i :: 0 <= i < |ids| ==>
           r.value.fragments[i] == store.metadata[Key(ownerId, ids[i])]
           && r.value.fragments[i].id == ids[i] && r.value.fragments[i].ownerId == ownerId
  {
    var ids := store.ListFragments(ownerId);
    forall i | 0 <= i < |ids|
      ensures Fragment.ById(store, ownerId, ids[i], freshId) == Ok(store.metadata[Key(ownerId, ids[i])])
    {
      ByIdReturnsStored(store, ownerId, ids[i], freshId);
    }
    forall i | 0 <= i < |ids|
      ensures KeyOf(store.metadata[Key(ownerId, ids[i])]) == Key(ownerId, ids[i])
    {
    }
  }

  /** Asking for the fragment's own media type gives the stored data unchanged. */
  lemma ConvertToOwnType(f: Fragment, store: Store, toText: Bytes -> string, render: string -> string)
    requires f.Valid()
    ensures f.ConvertData(store, f.MimeType(), toText, render) == Unchanged(f.GetData(store))
  {
  }

  /** Every supported fragment converts to plain text, and the plain text is
      the stored data unchanged (JSON included). */
  lemma ConvertToPlainText(f: Fragment, store: Store, toText: Bytes -> string, render: string -> string)
    requires f.Valid()
    ensures f.ConvertData(store, TextPlain, toText, render) == Unchanged(f.GetData(store))
  {
  }

  /** Markdown asked for as HTML is the renderer's output on the stored text. */
  lemma ConvertMarkdownToHtml(f: Fragment, store: Store, toText: Bytes -> string, render: string -> string)
    requires f.Valid() && f.MimeType() == TextMarkdown && f.GetData(store).Some?
    ensures f.ConvertData(store, TextHtml, toText, render) == Rendered(render(toText(f.GetData(store).value)))
  {
  }

  /** Only markdown converts to HTML: a plain-text fragment asked for as HTML
      is not convertible. */
  lemma PlainTextIsNotHtml(f: Fragment, store: Store, toText: Bytes -> string, render: string -> string)
    requires f.Valid() && f.MimeType() == TextPlain
    ensures f.ConvertData(store, TextHtml, toText, render) == NotConvertible
  {
  }

  /** A target written with parameters ("text/html; charset=utf-8") is never
      convertible, although it is a supported type: the formats are bare
      media types and are compared as strings. */
  lemma ConvertRejectsParameters(f: Fragment, store: Store, convertTo: string, toText: Bytes -> string, render: string -> string)
    requires ';' in convertTo
    ensures f.ConvertData(store, convertTo, toText, render) == NotConvertible
  {
    FormatsAreBare(f.MimeType());
  }
}
