/**
 * The envelope protocol of `src/serde.rs`.
 *
 * A trait object is written as a 2-tuple: the key of its concrete type in
 * the table of `TraitObjDeserializer<U>`, then the payload encoded in the
 * intermediate format. Reading it back looks the key up in that table and
 * runs the decoder stored there.
 *
 * Kept abstract: concrete values `V` (the universe of all concrete types,
 * each value read together with its type's id), the intermediate format
 * `S` that serialization writes (`S: InterSerialize`), the intermediate
 * format `R` that deserialization reads (`U::InterDeserialize`; both are
 * `serde_json::Value` in the library), and the outer format's elements `W`.
 * The intermediate codec and the outer format's element (de)serializers are
 * parameters; the round-trip lemmas assume only what they need of them.
 */
module Serde {
  import opened Wrappers
  import opened TyConstTable

  /** `TraitObjDeserializer(T::deserialize_inner)`: the function pointer, named by `T`. */
  datatype TraitObjDeserializer = TraitObjDeserializer(ty: TypeId)

  /** A trait object `U`: the boxed value and its erased concrete type. */
  datatype Obj<V> = Obj(ty: TypeId, val: V)

  /** `S::inter_serialize` and `R::inter_deserialize`, both at type `T`. */
  datatype Codec<!V, !S, !R> = Codec(
    interSerialize: (TypeId, V) -> Result<S, string>,
    interDeserialize: (TypeId, R) -> Result<V, string>)

  /**
   * What the outer format does with one tuple element: write a `usize` or
   * an intermediate value, and read one back (`next_element`), which may fail.
   */
  datatype Format<!W, !S, !R> = Format(
    serializeKey: Usize -> W,
    deserializeKey: W -> Result<Usize, string>,
    serializeInter: S -> W,
    deserializeInter: W -> Result<R, string>)

  /**
   * The program as the protocol sees it: its memory image, whose data are
   * the deserializers, the type id of `TraitObjDeserializer<U>`, the codec
   * and the outer format.
   */
  datatype Setup<!V, !S, !R, !W> = Setup(
    img: Image<TraitObjDeserializer>,
    table: TypeId,
    codec: Codec<V, S, R>,
    format: Format<W, S, R>)

  /** The error values `visit_seq` can return (`A::Error`). */
  datatype DeError =
    | ElementError(msg: string)   // `next_element` failed
    | MissingField(field: string) // `Error::missing_field`
    | InvalidValue(unsigned: nat) // `Error::invalid_value(Unexpected::Unsigned(k))`
    | Custom(msg: string)         // `Error::custom`

  /**
   * The memory image is valid, and the entries of the table of
   * `TraitObjDeserializer<U>` are those of its blanket `TyConst<T>` impl:
   * the entry for `T` is `T::deserialize_inner`.
   */
  ghost predicate Valid<V, S, R, W>(s: Setup<V, S, R, W>)
  {
    && TyConstTable.Valid(s.img)
    && forall p :: p in s.img.impls && p.table == s.table ==>
         s.img.impls[p] == TraitObjDeserializer(p.ty)
  }

  /** `T: Trait<S, U>` is in use, so the vtable for its table entry exists. */
  predicate Implements<V, S, R, W>(s: Setup<V, S, R, W>, ty: TypeId)
  {
    Pair(s.table, ty) in s.img.vtable
  }

  /** Blanket `Trait::serialize_inner`: `S::inter_serialize(self)`. */
  function SerializeInner<V, S, R, W>(s: Setup<V, S, R, W>, obj: Obj<V>): Result<S, string>
  {
    s.codec.interSerialize(obj.ty, obj.val)
  }

  /** Blanket `Trait::ty_const_key`: `get_ty_const_key::<TraitObjDeserializer<U>, Self>()`. */
  function ObjKey<V, S, R, W>(s: Setup<V, S, R, W>, ty: TypeId): (k: Usize)
    requires Implements(s, ty)
    ensures AddrAt(s.img.base, k) == s.img.vtable[Pair(s.table, ty)]
  {
    TyConstKey(s.img, Pair(s.table, ty))
  }

  /** The key a type writes looks up the decoder of that same type. */
  lemma ObjKeyFindsOwnDecoder<V, S, R, W>(s: Setup<V, S, R, W>, ty: TypeId)
    requires Valid(s) && Implements(s, ty)
    ensures GetTyConst(s.img, s.table, ObjKey(s, ty)) == Some(TraitObjDeserializer(ty))
  {
    KeyRoundTrip(s.img, Pair(s.table, ty));
  }

  /**
   * `<T as DeserializeInner<U>>::deserialize_inner`: decode a `T` from the
   * intermediate value, then convert it into `U`.
   */
  function DeserializeInner<V, S, R, W>(s: Setup<V, S, R, W>, ty: TypeId, d: R): Result<Obj<V>, string>
  {
    match s.codec.interDeserialize(ty, d)
    case Ok(v) => Ok(Obj(ty, v))
    case Err(e) => Err(e)
  }

  /**
   * The tuple `serialize` writes: exactly two elements, the key first and the
   * encoded payload second, when the intermediate encoding succeeds, and
   * otherwise that encoding's error.
   */
  function Envelope<V, S, R, W>(s: Setup<V, S, R, W>, obj: Obj<V>): (r: Result<seq<W>, string>)
    requires Implements(s, obj.ty)
    ensures r.Ok? <==> SerializeInner(s, obj).Ok?
    ensures r.Ok? ==> |r.value| == 2 && r.value[0] == s.format.serializeKey(ObjKey(s, obj.ty))
                      && r.value[1] == s.format.serializeInter(SerializeInner(s, obj).value)
    ensures r.Err? ==> r.error == SerializeInner(s, obj).error
  {
    match SerializeInner(s, obj)
    case Ok(i) => Ok([s.format.serializeKey(ObjKey(s, obj.ty)), s.format.serializeInter(i)])
    case Err(e) => Err(e)
  }

  /** What `visit_seq` returns, and how many elements it took from the sequence. */
  datatype Visit<V> = Visit(result: Result<Obj<V>, DeError>, consumed: nat)

  /**
   * `visit_seq` on the remaining elements `ws`, step by step. It never reads
   * past the tuple's two elements, gives a value only after reading both,
   * and rejects an unknown key before reading the payload.
   */
  function VisitElements<V, S, R, W>(s: Setup<V, S, R, W>, ws: seq<W>): (v: Visit<V>)
    ensures v.consumed <= 2 && v.consumed <= |ws|
    ensures v.result.Ok? ==> v.consumed == 2
    ensures v.result.Err? && v.result.error.InvalidValue? ==> v.consumed == 1
  {
    if |ws| == 0 then Visit(Err(MissingField("missing key")), 0)
    else match s.format.deserializeKey(ws[0])
      case Err(e) => Visit(Err(ElementError(e)), 1)
      case Ok(k) =>
        match GetTyConst(s.img, s.table, k)
        case None => Visit(Err(InvalidValue(k)), 1)
        case Some(dec) =>
          if |ws| == 1 then Visit(Err(MissingField("missing inner object")), 1)
          else match s.format.deserializeInter(ws[1])
            case Err(e) => Visit(Err(ElementError(e)), 2)
            case Ok(d) =>
              match DeserializeInner(s, dec.ty, d)
              case Ok(u) => Visit(Ok(u), 2)
              case Err(e) => Visit(Err(Custom(e)), 2)
  }

  /** The `SerializeTuple` state that `serialize_tuple(2)` opens. */
  class TupleSerializer<W> {
    var elements: seq<W>

    constructor ()
      ensures elements == []
    {
      elements := [];
    }

    /** `serialize_element`: append one element. */
    method SerializeElement(w: W)
      modifies this
      ensures elements == old(elements) + [w]
    {
      elements := elements + [w];
    }
  }

  /**
   * `serialize`: open a 2-tuple, write the key, then the intermediate
   * encoding. A failed encoding stops with that error; the key has already
   * been handed to the serializer by then, but only the error is returned.
   */
  method Serialize<V, S, R, W>(s: Setup<V, S, R, W>, obj: Obj<V>) returns (r: Result<seq<W>, string>)
    requires Implements(s, obj.ty)
    ensures r.Ok? <==> SerializeInner(s, obj).Ok?
    ensures r.Ok? ==> |r.value| == 2 &&
                      r.value[0] == s.format.serializeKey(ObjKey(s, obj.ty)) &&
                      r.value[1] == s.format.serializeInter(SerializeInner(s, obj).value)
    ensures r.Err? ==> r.error == SerializeInner(s, obj).error
    ensures r == Envelope(s, obj)
  {
    var t := new TupleSerializer();
    var key := s.format.serializeKey(ObjKey(s, obj.ty));
    t.SerializeElement(key);
    var inner := SerializeInner(s, obj);
    if inner.Err? {
      return Err(inner.error);
    }
    var payload := s.format.serializeInter(inner.value);
    t.SerializeElement(payload);
    assert t.elements == [key, payload];
    r := Ok(t.elements);
  }

  /** The `SeqAccess` a format hands to `visit_seq`: the elements and a cursor. */
  class SeqAccess<W> {
    const elements: seq<W>
    var pos: nat

    ghost predicate Valid()
      reads this
    {
      pos <= |elements|
    }

    ghost function Remaining(): seq<W>
      reads this
      requires Valid()
    {
      elements[pos..]
    }

    constructor (ws: seq<W>)
      ensures Valid() && elements == ws && pos == 0
    {
      elements := ws;
      pos := 0;
    }

    /**
     * `next_element`: `Ok(None)` at the end, otherwise the next element
     * read with `read`; the cursor moves past it either way.
     */
    method NextElement<X>(read: W -> Result<X, string>) returns (r: Result<Option<X>, string>)
      requires Valid()
      modifies this
      ensures Valid()
      ensures old(pos) == |elements| ==> pos == old(pos) && r == Ok(None)
      ensures old(pos) < |elements| ==>
                pos == old(pos) + 1 &&
                r == match read(elements[old(pos)]) case Ok(x) => Ok(Some(x)) case Err(e) => Err(e)
    {
      if pos == |elements| {
        return Ok(None);
      }
      var w := elements[pos];
      pos := pos + 1;
      match read(w)
      case Ok(x) => r := Ok(Some(x));
      case Err(e) => r := Err(e);
    }
  }

  /**
   * `Visitor::visit_seq`: read the key, look it up, read the payload, run
   * the stored decoder, each step with its own error.
   */
  method VisitSeq<V, S, R, W>(s: Setup<V, S, R, W>, sa: SeqAccess<W>) returns (r: Result<Obj<V>, DeError>)
    requires sa.Valid()
    modifies sa
    ensures sa.Valid()
    ensures r == VisitElements(s, old(sa.Remaining())).result
    ensures sa.pos == old(sa.pos) + VisitElements(s, old(sa.Remaining())).consumed
  {
    ghost var ws := sa.Remaining();
    var key := sa.NextElement(s.format.deserializeKey);
    if key.Err? {
      return Err(ElementError(key.error));
    }
    if key.value.None? {
      return Err(MissingField("missing key"));
    }
    var k := key.value.value;
    var found := GetTyConst(s.img, s.table, k);
    if found.None? {
      return Err(InvalidValue(k));
    }
    var ty := found.value.ty;
    var inner := sa.NextElement(s.format.deserializeInter);
    if inner.Err? {
      return Err(ElementError(inner.error));
    }
    if inner.value.None? {
      return Err(MissingField("missing inner object"));
    }
    match DeserializeInner(s, ty, inner.value.value)
    case Ok(u) => r := Ok(u);
    case Err(e) => r := Err(Custom(e));
  }

  /** `deserialize`: hand the 2-tuple's elements to `visit_seq`. */
  method Deserialize<V, S, R, W>(s: Setup<V, S, R, W>, ws: seq<W>) returns (r: Result<Obj<V>, DeError>)
    ensures r == VisitElements(s, ws).result
  {
    var sa := new SeqAccess(ws);
    r := VisitSeq(s, sa);
  }

  /**
   * Completeness, the converse of `DecodeSound`: a first element that reads
   * as the key of a type in the table, and a second that reads as a payload
   * decoding at that type, give that type's value after both elements.
   */
  lemma DecodeComplete<V, S, R, W>(s: Setup<V, S, R, W>, ws: seq<W>, ty: TypeId, d: R, v: V)
    requires Valid(s) && Implements(s, ty) && |ws| >= 2
    requires s.format.deserializeKey(ws[0]) == Ok(ObjKey(s, ty))
    requires s.format.deserializeInter(ws[1]) == Ok(d)
    requires s.codec.interDeserialize(ty, d) == Ok(v)
    ensures VisitElements(s, ws) == Visit(Ok(Obj(ty, v)), 2)
  {
    ObjKeyFindsOwnDecoder(s, ty);
  }

  /**
   * Round trip: when the format reads back this key and this payload, and
   * the codec decodes this payload to this value, what `serialize` writes
   * `deserialize` reads back as the same concrete type and an equal value,
   * using both elements. Nothing is assumed about other types or values.
   */
  lemma RoundTrip<V, S, R, W>(s: Setup<V, S, R, W>, obj: Obj<V>, d: R)
    requires Valid(s) && Implements(s, obj.ty) && SerializeInner(s, obj).Ok?
    requires s.format.deserializeKey(s.format.serializeKey(ObjKey(s, obj.ty))) == Ok(ObjKey(s, obj.ty))
    requires s.format.deserializeInter(s.format.serializeInter(SerializeInner(s, obj).value)) == Ok(d)
    requires s.codec.interDeserialize(obj.ty, d) == Ok(obj.val)
    ensures Envelope(s, obj).Ok?
    ensures VisitElements(s, Envelope(s, obj).value) == Visit(Ok(obj), 2)
  {
    var ws := Envelope(s, obj).value;
    assert ws[1] == s.format.serializeInter(SerializeInner(s, obj).value);
    DecodeComplete(s, ws, obj.ty, d, obj.val);
  }

  /** An encoding failure makes `serialize` return that error instead of a tuple. */
  lemma EncodeFailurePropagates<V, S, R, W>(s: Setup<V, S, R, W>, obj: Obj<V>)
    requires Implements(s, obj.ty) && SerializeInner(s, obj).Err?
    ensures Envelope(s, obj) == Err(SerializeInner(s, obj).error)
  {
  }

  /** An empty sequence is reported as the missing key, reading nothing. */
  lemma MissingKey<V, S, R, W>(s: Setup<V, S, R, W>)
    ensures VisitElements(s, []) == Visit(Err(MissingField("missing key")), 0)
  {
  }

  /**
   * A key that is not the key of any type in the table is reported as an
   * invalid value, after reading one element: what follows is never read.
   */
  lemma UnknownKeyRejected<V, S, R, W>(s: Setup<V, S, R, W>, ws: seq<W>, k: Usize)
    requires Valid(s) && |ws| > 0 && s.format.deserializeKey(ws[0]) == Ok(k)
    requires forall ty :: Implements(s, ty) ==> ObjKey(s, ty) != k
    ensures VisitElements(s, ws) == Visit(Err(InvalidValue(k)), 1)
  {
    forall p | p in s.img.vtable && p.table == s.table
      ensures TyConstKey(s.img, p) != k
    {
      assert p == Pair(s.table, p.ty) && Implements(s, p.ty);
    }
    UnknownKeyGivesNone(s.img, s.table, k);
  }

  /** The key that another table gives a type is rejected by this one. */
  lemma ForeignKeyRejected<V, S, R, W>(s: Setup<V, S, R, W>, ws: seq<W>, p: Pair)
    requires Valid(s) && p in s.img.vtable && p.table != s.table
    requires |ws| > 0 && s.format.deserializeKey(ws[0]) == Ok(TyConstKey(s.img, p))
    ensures VisitElements(s, ws) == Visit(Err(InvalidValue(TyConstKey(s.img, p))), 1)
  {
    TableIsolation(s.img, p, s.table);
  }

  /** A single element that reads as a known key is reported as the missing inner object. */
  lemma MissingInner<V, S, R, W>(s: Setup<V, S, R, W>, ws: seq<W>, k: Usize)
    requires |ws| == 1 && s.format.deserializeKey(ws[0]) == Ok(k)
    requires GetTyConst(s.img, s.table, k).Some?
    ensures VisitElements(s, ws) == Visit(Err(MissingField("missing inner object")), 1)
  {
  }

  /**
   * A known key followed by a payload that the key's decoder rejects is a
   * custom error carrying the decoder's message, never a value.
   */
  lemma PayloadRejected<V, S, R, W>(s: Setup<V, S, R, W>, ws: seq<W>, k: Usize, ty: TypeId, d: R)
    requires |ws| >= 2 && s.format.deserializeKey(ws[0]) == Ok(k)
    requires GetTyConst(s.img, s.table, k) == Some(TraitObjDeserializer(ty))
    requires s.format.deserializeInter(ws[1]) == Ok(d) && s.codec.interDeserialize(ty, d).Err?
    ensures VisitElements(s, ws) == Visit(Err(Custom(s.codec.interDeserialize(ty, d).error)), 2)
  {
  }
  /**
   * Soundness: a value comes back only when the first element is the key
   * of some type in the table and the second decodes, at that type, to it.
   */
  lemma DecodeSound<V, S, R, W>(s: Setup<V, S, R, W>, ws: seq<W>)
    requires Valid(s) && VisitElements(s, ws).result.Ok?
    ensures |ws| >= 2
    ensures exists ty, d :: Implements(s, ty) &&
              s.format.deserializeKey(ws[0]) == Ok(ObjKey(s, ty)) &&
              s.format.deserializeInter(ws[1]) == Ok(d) &&
              s.codec.interDeserialize(ty, d) == Ok(VisitElements(s, ws).result.value.val) &&
              VisitElements(s, ws).result.value.ty == ty
  {
    var k := s.format.deserializeKey(ws[0]).value;
    LookupSound(s.img, s.table, k);
    var p :| p in s.img.vtable && p.table == s.table && TyConstKey(s.img, p) == k &&
             GetTyConst(s.img, s.table, k) == Some(s.img.impls[p]);
    assert s.img.impls[p] == TraitObjDeserializer(p.ty);
    var d := s.format.deserializeInter(ws[1]).value;
    var u := VisitElements(s, ws).result.value;
    assert DeserializeInner(s, p.ty, d) == Ok(u);
    assert Implements(s, p.ty) && ObjKey(s, p.ty) == k;
    assert s.codec.interDeserialize(p.ty, d) == Ok(u.val) && u.ty == p.ty;
  }
}
