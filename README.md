# detrojt: type-constant table and trait-object envelope, in Dafny

This project models the two parts of the Rust library detrojt and proves properties about them.

**The type-constant table** (`src/lib.rs`, module `TyConstTable` in `ty_const.dfy`). Each
use of `get_ty_const_key::<D, T>` puts one entry in the table of `D`; implementing
`D: TyConst<T>` alone adds nothing. That entry is the vtable the
compiler emits for `Dummy<T>` used as a `TyConstImpl<D>`. The key of the entry is the wrapping
difference between that vtable's address and the address of the vtable of `() as Send`.
`get_ty_const::<D>(key)` adds the key back to the base. It then reads what is there (if it can),
checks the Dummy fingerprint (`size == MAGIC`, `align == 1`) and checks the type id against
`TypeId::of::<D>()`, in that order. Only then does it return the entry's data.

Memory is an `Image`. It holds the base address, a finite map from readable addresses to what they
hold read as a vtable (`size`, `align`, and what the `get_type_id` and `get` entries return), the
vtable address of every `(D, T)` pair in use, and each pair's `get_data()`. A type enters the
table of `D` when `get_ty_const_key::<D, T>` is used, because that use makes the compiler emit the
pair's vtable; the model writes this as `Pair(D, T) in img.vtable`. `Valid(img)` states
what the model assumes about the program's layout:
- the base vtable records the size of `()`, which is 0;
- every pair's vtable is readable and carries the fingerprint, its own type id and its data;
- distinct pairs have distinct vtables;
- any readable record with the fingerprint is the vtable of some pair.
The `Image` also has a single base, shared by key creation and lookup. Rust promises none of these
layout facts. "## Left out" has a line for each of them, naming the lemmas that depend on it.

A key is meant to be usable in a later execution of the same program. `Moved(img1, img2, d)` says
the executable is loaded `d` bytes further on, so the base and every pair's vtable move by `d`,
with the same pairs in use. `Relocated(img1, img2, d)` describes a later run: it has moved, and the
pairs' data stay the same. Nothing is assumed
about the rest of memory (heap, stack, other libraries), which may lie elsewhere and hold other
contents. The lemmas prove that keys are unchanged by a move alone, and that when both runs meet
`Valid`, every key looks up the same result.

**The envelope protocol** (`src/serde.rs`, module `Serde` in `serde.dfy`). `serialize` opens a
2-tuple, writes the key of the value's type in the table of `TraitObjDeserializer<U>`, then writes
the value's intermediate encoding. `visit_seq` reads the key, looks it up, reads the payload and
runs the stored decoder, with a distinct error at each step: serde's `missing_field`,
`invalid_value` and `custom`. The intermediate codec and the outer
format's element readers and writers are parameters (`Codec`, `Format`). Serialization writes the
intermediate type `S` (`S: InterSerialize`). Deserialization reads the separate type `R`
(`U::InterDeserialize`). The round-trip lemmas assume only that this one key and this one payload
come back. Serialization builds its tuple
in a `TupleSerializer`. Deserialization reads through a `SeqAccess` cursor. `VisitSeq` is proved
against the function `VisitElements`, which also says how many elements were consumed.

`Wrappers` (`wrappers.dfy`) holds `Option` and `Result`.

## Model

| member | source | states |
|---|---|---|
| `TyConstTable.AddrAt` | src/lib.rs:131 | adding a key to the base gives the sum, less 2^64 when the sum overflows |
| `TyConstTable.Offset` | src/lib.rs:116 | the wrapping difference from the base is the one offset that, added back to the base, gives the address |
| `TyConstTable.HasDummyFingerprint` | src/lib.rs:135 | a record with the fingerprint has a non-zero size and alignment 1, so the vtable of a zero-sized type such as `()` never passes |
| `TyConstTable.TyConstKey` | src/lib.rs:109-118 | the key is a pure offset: adding it back to the base address gives exactly the vtable of the pair it was made for |
| `TyConstTable.GetTyConst` | src/lib.rs:126-144 | `Some(x)` is returned only when the target address is readable, its record has the fingerprint and reports the table's type id, and `x` is that record's data |
| `TyConstTable.KeyRoundTrip` | src/lib.rs:19-21 | for every `(D, T)` in use, looking up its key in the table of `D` gives `Some(<D as TyConst<T>>::get_data())` |
| `TyConstTable.KeySurvivesRelocation` | src/lib.rs:13-17 | when a later run loads the executable at another offset, moving the base and every vtable together, every pair keeps the same key; nothing about data or the rest of memory is needed |
| `TyConstTable.KeyUsableInLaterRun` | src/lib.rs:13-17 | a key saved in one run finds, in any later run that moves the executable and meets the layout assumptions, the data of the pair it was made for |
| `TyConstTable.LookupSurvivesRelocation` | src/lib.rs:128-131 | when both runs meet the layout assumptions and the executable moved, every key looks up the same result in every table, whatever the rest of memory holds |
| `TyConstTable.LaterRunExample` | src/lib.rs:13-17 | a concrete later run whose heap record neither moved with the executable nor kept its contents still serves the saved key |
| `TyConstTable.KeysAreUnique` | src/lib.rs:9-11 | two different types in one table never share a key |
| `TyConstTable.UnreadableGivesNone` | src/lib.rs:133-134 | a key whose target address cannot be read gives `None` |
| `TyConstTable.WrongFingerprintGivesNone` | src/lib.rs:133-136 | a readable record whose size is not `MAGIC` or whose alignment is not 1 gives `None` |
| `TyConstTable.ZeroKeyGivesNone` | src/lib.rs:133-136 | key 0 reaches the base vtable itself, which fails the fingerprint check, so it gives `None` in every table |
| `TyConstTable.TableIsolation` | src/lib.rs:139-141 | the key of `(D', T)` is rejected with `None` by the table of every `D` other than `D'` |
| `TyConstTable.LookupSound` | src/lib.rs:126-143 | a lookup that returns a value was given the key of some `(D, T)` in the table of `D`, and the value is that pair's data |
| `TyConstTable.UnknownKeyGivesNone` | src/lib.rs:19-21 | a key that belongs to no type in the table of `D` gives `None` |
| `TyConstTable.AddrAtInjective` | src/lib.rs:131 | adding different keys to the same base reaches different addresses |
| `TyConstTable.LookupExact` | src/lib.rs:120-143 | a lookup in the table of `D` returns `Some(x)` exactly when the key is the key of some `(D, T)` whose data is `x` |
| `TyConstTable.SizeTableExample` | src/lib.rs:28-41 | the documented `Size` table: the keys of `()` and `i64` give `Some(0)` and `Some(8)`, and key 1, which lands inside the base vtable, fails the fingerprint check and gives `None` |
| `Serde.ObjKey` | src/serde.rs:147-149 | the key a value writes is the offset of its own type's vtable in the table of `TraitObjDeserializer<U>` |
| `Serde.ObjKeyFindsOwnDecoder` | src/serde.rs:147-148 | the key a type writes (its key in the table of `TraitObjDeserializer<U>`) looks up that same type's decoder |
| `Serde.Envelope` | src/serde.rs:160-164 | succeeds exactly when the intermediate encoding does, and then holds exactly two elements: the key first and the encoded payload second; otherwise it is the encoding's error |
| `Serde.TupleSerializer.SerializeElement` | src/serde.rs:161-163 | each element is appended after the ones already written |
| `Serde.Serialize` | src/serde.rs:154-165 | succeeds exactly when the intermediate encoding does; then it writes two elements, the key first and the payload second; otherwise it returns the encoding's error |
| `Serde.VisitElements` | src/serde.rs:204-216 | never reads more than the two tuple elements, gives a value only after reading both, and reports an unknown key after reading only one |
| `Serde.SeqAccess.NextElement` | src/serde.rs:208-214 | at the end of the sequence it gives `Ok(None)` and does not move; otherwise it reads the next element and moves past it |
| `Serde.VisitSeq` | src/serde.rs:204-216 | returns what `VisitElements` gives for the unread elements, and the cursor moves by exactly the number of elements that function consumes |
| `Serde.Deserialize` | src/serde.rs:219-226 | gives the result of `visit_seq` on the tuple's elements |
| `Serde.DecodeComplete` | src/serde.rs:208-215 | a first element that reads as a type's key and a second that decodes at that type to `v` give that type's value `v` after two elements |
| `Serde.RoundTrip` | src/serde.rs:52-57 | if this key and this payload read back, and the payload decodes to this value, then deserializing what `serialize` wrote gives the same concrete type and an equal value, using both elements |
| `Serde.EncodeFailurePropagates` | src/serde.rs:162-163 | if the intermediate encoding fails, `serialize` returns that error instead of a tuple |
| `Serde.MissingKey` | src/serde.rs:208-209 | an empty sequence gives the "missing key" error and reads nothing |
| `Serde.UnknownKeyRejected` | src/serde.rs:210-212 | a key that belongs to no type in the table gives `invalid_value(Unsigned(k))` after one element, before the payload is read |
| `Serde.ForeignKeyRejected` | src/serde.rs:210-212 | a key issued by another table is rejected with `invalid_value` after one element |
| `Serde.MissingInner` | src/serde.rs:213-214 | any single element that reads as a known key gives the "missing inner object" error |
| `Serde.PayloadRejected` | src/serde.rs:215 | a known key followed by any payload its decoder rejects gives a custom error carrying the decoder's message, never a value |
| `Serde.DecodeSound` | src/serde.rs:204-216 | a value comes back only when the first element reads as the key of some type in the table and the second element decodes at that type to the value, and the value has that type |

## Left out

- `ptr_try_read` (src/lib.rs:52-61) tests readability by writing the bytes to `/dev/random`. That is file I/O. The model treats a record as readable, all or nothing, when its address is in the image's map. This drops two behaviours:
  - `File::create("/dev/random").unwrap()` (src/lib.rs:54) panics when the device cannot be opened, and then every lookup panics, valid keys included;
  - `f.write(s).is_ok()` (src/lib.rs:56) also accepts a short write, after which `ptr::read` still reads the whole record.
- The `transmute`s and the compiler's real vtable layout (src/lib.rs:63-76, 112-117, 127-138) are replaced by the `Image` abstraction. The `TraitObject` and `Vtable` structs are not modelled as bytes.
- The source warns that a bad key can reach memory that only looks like a Dummy vtable and so cause arbitrary code execution (src/lib.rs:123-125). The model cannot express that case. Instead it assumes, in the last conjunct of `TyConstTable.Valid`, that every readable record with the fingerprint is a genuine Dummy vtable. `TyConstTable.LookupSound` rests on this assumption, and through it so do:
  - `TyConstTable.UnknownKeyGivesNone`, `TyConstTable.LookupExact` and `TyConstTable.LookupSurvivesRelocation`;
  - `Serde.UnknownKeyRejected` and `Serde.DecodeSound`.
  Without it, a key that belongs to no pair can reach such a record and return its data.
- TyConstTable.KeyRoundTrip, TyConstTable.TableIsolation and TyConstTable.LookupSound assume that every pair's vtable is readable and is its Dummy vtable, with the fingerprint, the table's type id and the pair's data (the third conjunct of `TyConstTable.Valid`). The language does not document vtable contents, so this is an assumption. Through those three lemmas, these also rest on it:
  - `TyConstTable.KeyUsableInLaterRun`, `TyConstTable.LookupSurvivesRelocation`, `TyConstTable.UnknownKeyGivesNone` and `TyConstTable.LookupExact`;
  - `TyConstTable.SizeTableExample` and `TyConstTable.LaterRunExample`;
  - `Serde.ObjKeyFindsOwnDecoder`, `Serde.DecodeComplete` and `Serde.RoundTrip`;
  - `Serde.ForeignKeyRejected`, `Serde.UnknownKeyRejected` and `Serde.DecodeSound`.
- TyConstTable.KeyRoundTrip and every lookup lemma assume one shared base. `get_ty_const_key` (src/lib.rs:113) and `get_ty_const` (src/lib.rs:128) each take the vtable of `() as Send` on their own, and Rust does not promise that separate codegen units share one copy. The model has a single `base`, so it does not capture keys that break when two copies differ.
- TyConstTable.ZeroKeyGivesNone and TyConstTable.SizeTableExample assume that the base vtable is readable and records size 0, the size of `()`. The language does not document the vtable layout, so this is an assumption (the first conjunct of `TyConstTable.Valid`).
- TyConstTable.KeysAreUnique assumes that distinct pairs have distinct vtables. Rust may merge vtables whose contents match, and then two types of one table would share a key. The model does not cover that case.
- The key arithmetic at src/lib.rs:116 and 131 is modelled as wrapping modulo 2^64, which is what a release build does. In a debug build that subtraction or addition panics on overflow, for example for a very large key. The model does not capture that panic.
- The `serde_json::Value` implementations of `InterSerialize` and `InterDeserialize` (src/serde.rs:78-99) belong to a foreign library. They are the `Codec` parameter. That a payload decodes back to its value is assumed per value, in `Serde.RoundTrip`.
- Serde.Serialize returns only the error when the intermediate encoding fails. By then `serialize_tuple(2)` and the key element have already run (src/serde.rs:160-161), and a streaming serializer may already have emitted them. The model does not capture that partial output.
- The serde `Serializer` and `Deserializer` are foreign too. Failures of `serialize_tuple`, `serialize_element` and `end` are not modelled. How `deserialize_tuple` treats input that is not a sequence, or a sequence with extra elements, is also left out. `Deserialize` takes the tuple's elements directly.
- `Visitor::expecting` (src/serde.rs:200-202) only formats a message and is not modelled.
- Error values: `Box<Error>` is a `string`, and the `A::Error` values of `visit_seq` are the `DeError` constructors.
- Rust types and trait plumbing are abstract. `TypeId` and the types `D`, `T` are `nat` identifiers. A trait object `U` is an `Obj` (concrete type plus value), and `Into::into` is the `Obj` constructor. `Box` ownership is not modelled.
- `<TraitObjDeserializer<U> as TyConst<T>>::get_data` (src/serde.rs:183-190) has no member of its own. It is the second conjunct of `Serde.Valid`: the table entry for `T` is `T`'s decoder.
- `SerializeInner` (src/serde.rs:144-146) only calls the codec, which is a parameter, so it has no contract of its own. What it produces is stated by `Serde.Serialize`, `Serde.Envelope` and `Serde.RoundTrip`.
- `DummyVtable` (src/lib.rs:83-97) only builds the record that `impl TyConstImpl<D> for Dummy<T>` makes, so it has no contract of its own. What that record means is proved by `TyConstTable.KeyRoundTrip` and `TyConstTable.LookupExact`.
- `DeserializeInner` (src/serde.rs:174-181) only calls the codec and wraps the result in an `Obj` of its own type, so it has no contract of its own. What it produces is proved by `Serde.DecodeSound`, `Serde.DecodeComplete` and `Serde.PayloadRejected`.
