/**
 * Reading one `item` back from a saved state.
 *
 * The archive records the class version of `item` once, and every item read from
 * it is decoded in the encoding that version names. Three encodings exist: the
 * current variant (version 2), the 0.67 variant that still had an owning object
 * reference (version 1), and the 0.66 tagged record (version 0). One item's share
 * of the archive is modelled by what its bytes decode to, paired with that version
 * (`Archived`). Pairing the version with each item admits archives that mix
 * versions, which cannot occur; every property below holds item by item, so it
 * holds for the archives that do occur as well.
 */
module ItemLoad {
  import opened Items

  /** The class version written by `save`. */
  const CurrentVersion: nat := 2

  // ---------------------------------------------------------------------------
  // Version 1: the 0.67 variant

  /** The 0.67 variant: `old_blank`, `SInt32`, `Float32`, `FormId`, `object_ref_old`, `std::string`. */
  datatype OldVariant =
    | OldBlank
    | OldInt(i: Int32)
    | OldFlt(f: Float32)
    | OldForm(id: FormId)
    | ObjectRefOld(px: ObjPtr)
    | OldStr(s: string)

  /**
   * The 0.67 to current converter: a blank leaves the target untouched, an old
   * object reference becomes an internal reference to the same pointer, and every
   * other alternative is copied as it is.
   */
  function ConvertOld(v: OldVariant, target: Item): (r: Item)
    ensures v.OldBlank? ==> r == target
    ensures v.ObjectRefOld? ==> r == Obj(v.px)
    ensures !v.OldBlank? ==> Downgrade(r) == v
  {
    match v
    case OldBlank => target
    case OldInt(i) => Int(i)
    case OldFlt(f) => Flt(f)
    case OldForm(id) => Form(id)
    case ObjectRefOld(px) => Obj(px)
    case OldStr(s) => Str(s)
  }

  /** How a 0.67 writer stored an item: null as a blank, an object as an owning reference. */
  function Downgrade(i: Item): OldVariant
  {
    match i
    case Null => OldBlank
    case Int(n) => OldInt(n)
    case Flt(f) => OldFlt(f)
    case Str(s) => OldStr(s)
    case Obj(p) => ObjectRefOld(p)
    case Form(id) => OldForm(id)
  }

  /** Converting what a 0.67 writer stored gives back the item, except that a null leaves the target as it was. */
  lemma ConvertOldInvertsDowngrade(i: Item, target: Item)
    ensures ConvertOld(Downgrade(i), target) == if i.Null? then target else i
  {
    match i
    case Null =>
    case Int(_) =>
    case Flt(_) =>
    case Str(_) =>
    case Obj(_) =>
    case Form(_) =>
  }

  // ---------------------------------------------------------------------------
  // Version 0: the 0.66 tagged record

  const ItemTypeNone: Byte := 0
  const ItemTypeInt32: Byte := 1
  const ItemTypeFloat32: Byte := 2
  const ItemTypeCString: Byte := 3
  const ItemTypeObject: Byte := 4
  const ItemTypeForm: Byte := 5

  /** A tag byte that announces no payload: `ItemTypeNone` or a value the reader does not know. */
  type UntypedTag = t: Byte | t == ItemTypeNone || t > ItemTypeForm

  /** A 0.66 record, already split into its tag and the payload that tag makes the reader take. */
  datatype OldRecord =
    | Int32Record(i: Int32)
    | Float32Record(f: Float32)
    | CStringRecord(s: string)
    | ObjectRecord(ptr: ObjPtr)
    | FormRecord(oldId: UInt32)
    | UntypedRecord(tag: UntypedTag)

  /** The tag byte at the head of a record. */
  function TagOf(rec: OldRecord): Byte
  {
    match rec
    case Int32Record(_) => ItemTypeInt32
    case Float32Record(_) => ItemTypeFloat32
    case CStringRecord(_) => ItemTypeCString
    case ObjectRecord(_) => ItemTypeObject
    case FormRecord(_) => ItemTypeForm
    case UntypedRecord(t) => t
  }

  /**
   * The 0.66 reader: tags 1 to 5 produce an int, a float, a string, an object
   * reference and a FormId (taken from the raw 32-bit id); any other tag leaves
   * the item as it was.
   */
  function ReadRecord(rec: OldRecord, itm: Item): (r: Item)
    ensures rec.UntypedRecord? ==> r == itm
    ensures !rec.UntypedRecord? ==> WriteRecord(r) == rec
    ensures TagOf(rec) == ItemTypeInt32 ==> r.Int?
    ensures TagOf(rec) == ItemTypeFloat32 ==> r.Flt?
    ensures TagOf(rec) == ItemTypeCString ==> r.Str?
    ensures TagOf(rec) == ItemTypeObject ==> r.Obj?
    ensures TagOf(rec) == ItemTypeForm ==> r == Form(rec.oldId as FormId)
  {
    match rec
    case Int32Record(i) => Int(i)
    case Float32Record(f) => Flt(f)
    case CStringRecord(s) => Str(s)
    case ObjectRecord(p) => Obj(p)
    case FormRecord(oldId) => Form(oldId as FormId)
    case UntypedRecord(_) => itm
  }

  /** How a 0.66 writer stored an item: a null as a record with `ItemTypeNone`. */
  function WriteRecord(i: Item): (rec: OldRecord)
    ensures i.Null? <==> TagOf(rec) == ItemTypeNone
  {
    match i
    case Null => UntypedRecord(ItemTypeNone)
    case Int(n) => Int32Record(n)
    case Flt(f) => Float32Record(f)
    case Str(s) => CStringRecord(s)
    case Obj(p) => ObjectRecord(p)
    case Form(id) => FormRecord(id as UInt32)
  }

  /** Reading what a 0.66 writer stored gives back the item, except that a null leaves the item as it was. */
  lemma ReadRecordInvertsWriteRecord(i: Item, itm: Item)
    ensures ReadRecord(WriteRecord(i), itm) == if i.Null? then itm else i
  {
    match i
    case Null =>
    case Int(_) =>
    case Flt(_) =>
    case Str(_) =>
    case Obj(_) =>
    case Form(_) =>
  }

  // ---------------------------------------------------------------------------
  // item::load and item::save

  /** What an archive holds for one item, in the encoding its class version names. */
  datatype Archived =
    | Current(item: Item)
    | Legacy1(variant: OldVariant)
    | Legacy0(record: OldRecord)
    | Unknown(version: UnknownVersion)

  /** Any class version that no reader exists for. */
  type UnknownVersion = v: nat | v > CurrentVersion witness 3

  /** The class version stored with the item. */
  function VersionOf(a: Archived): nat
  {
    match a
    case Current(_) => 2
    case Legacy1(_) => 1
    case Legacy0(_) => 0
    case Unknown(v) => v
  }

  datatype LoadError = UnsupportedVersion(version: nat)

  datatype Result<T> = Ok(value: T) | Err(error: LoadError)

  /**
   * The post-pass of `load`: a form is replaced by its id as the current session
   * resolves it (which is null when it resolves to FormZero); any other item stays.
   */
  function ResolveLoaded(i: Item, resolve: FormId -> FormId): (r: Item)
    ensures !i.Form? ==> r == i
    ensures i.Form? ==> r == FromFormId(resolve(i.id))
    ensures r.Form? ==> r.id != FormZero
  {
    if i.Form? then FromFormId(resolve(i.id)) else i
  }

  /** The version switch of `load`, before the post-pass; `itm` is the item being loaded into. */
  function Decode(a: Archived, itm: Item): (r: Result<Item>)
    ensures r.Err? <==> VersionOf(a) > CurrentVersion
    ensures r.Err? ==> r.error == UnsupportedVersion(VersionOf(a))
    // the legacy readers never resolve: a form they yield is the stored raw id,
    // or the item loaded into, left as it was
    ensures r.Ok? && r.value.Form? && a.Legacy1? ==>
              a.variant == OldForm(r.value.id) || (a.variant.OldBlank? && r.value == itm)
    ensures r.Ok? && r.value.Form? && a.Legacy0? ==>
              a.record == FormRecord(r.value.id as UInt32) || (a.record.UntypedRecord? && r.value == itm)
  {
    match a
    case Current(i) => Ok(i)
    case Legacy1(v) => Ok(ConvertOld(v, itm))
    case Legacy0(rec) => Ok(ReadRecord(rec, itm))
    case Unknown(v) => Err(UnsupportedVersion(v))
  }

  /**
   * `item::load`: decode according to the stored version, then resolve a loaded
   * FormId once against the current session. An unknown version fails the load.
   */
  function Load(a: Archived, itm: Item, resolve: FormId -> FormId): (r: Result<Item>)
    ensures r.Err? <==> VersionOf(a) > CurrentVersion
    ensures r.Err? ==> r.error == UnsupportedVersion(VersionOf(a))
    ensures VersionOf(a) == 2 ==> r == Ok(ResolveLoaded(a.item, resolve))
    ensures VersionOf(a) == 1 ==> r == Ok(ResolveLoaded(ConvertOld(a.variant, itm), resolve))
    ensures VersionOf(a) == 0 ==> r == Ok(ResolveLoaded(ReadRecord(a.record, itm), resolve))
  {
    match Decode(a, itm)
    case Ok(i) => Ok(ResolveLoaded(i, resolve))
    case Err(e) => Err(e)
  }

  /** `item::save`: the current variant, written under the current class version. */
  function Save(i: Item): (a: Archived)
    ensures VersionOf(a) == CurrentVersion
    ensures a == Current(i)
  {
    Current(i)
  }

  /** A save followed by a load gives back every item that is not a form; a form comes back resolved. */
  lemma SaveLoadRoundTrip(i: Item, itm: Item, resolve: FormId -> FormId)
    ensures !i.Form? ==> Load(Save(i), itm, resolve) == Ok(i)
    ensures i.Form? ==> Load(Save(i), itm, resolve) == Ok(FromFormId(resolve(i.id)))
    ensures i.Form? && i.id != FormZero && resolve(i.id) == i.id ==> Load(Save(i), itm, resolve) == Ok(i)
  {
  }

  /**
   * A form is resolved exactly once whatever version it was stored under: the
   * legacy readers carry the raw id and only the post-pass applies `resolve`.
   */
  lemma FormResolvedOnceAtEveryVersion(id: FormId, itm: Item, resolve: FormId -> FormId)
    ensures Load(Current(Form(id)), itm, resolve) == Ok(FromFormId(resolve(id)))
    ensures Load(Legacy1(OldForm(id)), itm, resolve) == Ok(FromFormId(resolve(id)))
    ensures Load(Legacy0(FormRecord(id as UInt32)), itm, resolve) == Ok(FromFormId(resolve(id)))
  {
  }

  /** An item stored by a 0.67 writer loads as the same item stored by the current writer. */
  lemma Legacy1LoadsLikeCurrent(i: Item, itm: Item, resolve: FormId -> FormId)
    requires !i.Null?
    ensures Load(Legacy1(Downgrade(i)), itm, resolve) == Load(Save(i), itm, resolve)
  {
    ConvertOldInvertsDowngrade(i, itm);
  }

  /** An item stored by a 0.66 writer loads as the same item stored by the current writer. */
  lemma Legacy0LoadsLikeCurrent(i: Item, itm: Item, resolve: FormId -> FormId)
    requires !i.Null?
    ensures Load(Legacy0(WriteRecord(i)), itm, resolve) == Load(Save(i), itm, resolve)
  {
    ReadRecordInvertsWriteRecord(i, itm);
  }
}
