/**
 * The type-constant table of `src/lib.rs`.
 *
 * Each use of `get_ty_const_key::<D, T>` puts one entry into the table of
 * `D`; implementing `D: TyConst<T>` alone adds nothing.
 * The entry is the vtable that the compiler emits for `Dummy<T>` used as a
 * `TyConstImpl<D>` trait object, and the key of the entry is the distance
 * (modulo 2^64) from a fixed base vtable, that of `() as Send`, to it.
 *
 * Memory is modelled as an `Image`: the base address, what can be read at
 * each readable address (interpreted as a vtable header followed by the
 * results of its two methods), the address of the vtable of each
 * instantiated `(D, T)` pair, and the value `<D as TyConst<T>>::get_data()`.
 */
module TyConstTable {
  import opened Wrappers

  /** 2^64: the model fixes `usize` at 64 bits. */
  const WORD: nat := 0x1_0000_0000_0000_0000

  type Usize = x: nat | x < WORD

  /** Size of `Dummy<T>`: its only non-empty field is `[u8; MAGIC]`. */
  const MAGIC: nat := 0x625f405b5af9

  /** A runtime type identity (`TypeId`), kept abstract. */
  type TypeId = nat

  /** A table `D` together with the type `T` it is indexed by. */
  datatype Pair = Pair(table: TypeId, ty: TypeId)

  /**
   * What `ptr_try_read` yields at an address, read as a `Vtable`: the
   * `size` and `align` words of the header, and what the vtable's
   * `get_type_id` and `get` entries return when called.
   */
  datatype Vtable<V> = Vtable(size: nat, align: nat, typeId: TypeId, data: V)

  datatype Image<V> = Image(
    base: Usize,                  // address of the vtable of `() as Send`
    mem: map<Usize, Vtable<V>>,   // readable addresses and what they hold
    vtable: map<Pair, Usize>,     // vtable of `Dummy<T> as TyConstImpl<D>`
    impls: map<Pair, V>)          // `<D as TyConst<T>>::get_data()`

  /**
   * The vtable header that `Dummy<T>` and only `Dummy<T>` has. It tells a
   * Dummy vtable apart from the base vtable, whose type `()` has size 0.
   */
  predicate HasDummyFingerprint<V>(vt: Vtable<V>)
    ensures HasDummyFingerprint(vt) ==> vt.size != 0 && vt.align == 1
  {
    vt.size == MAGIC && vt.align == 1
  }

  /** The vtable that `impl TyConstImpl<D> for Dummy<T>` makes for `p`. */
  function DummyVtable<V>(img: Image<V>, p: Pair): Vtable<V>
    requires p in img.impls
  {
    Vtable(MAGIC, 1, p.table, img.impls[p])
  }

  /**
   * What the model assumes about the layout of the running program. The
   * language promises none of these layout facts.
   *   - The base vtable, that of `() as Send`, is readable and records the
   *     size of `()`, which is 0.
   *   - The vtable of every pair in use is readable and is its Dummy vtable.
   *   - Distinct pairs have distinct vtables (none were merged).
   *   - A readable record that carries the Dummy fingerprint is a genuine
   *     `Dummy` vtable. The library warns that it cannot make sure of this
   *     (a bad key may reach memory that only looks like such a vtable).
   * Besides these conjuncts, the `Image` has a single `base`: it assumes
   * that `get_ty_const_key` and `get_ty_const` see the same vtable for
   * `() as Send`.
   */
  ghost predicate Valid<V>(img: Image<V>)
  {
    && img.base in img.mem && img.mem[img.base].size == 0
    && img.vtable.Keys <= img.impls.Keys
    && (forall p :: p in img.vtable ==>
          p in img.impls && img.vtable[p] in img.mem &&
          img.mem[img.vtable[p]] == DummyVtable(img, p))
    && (forall p, q :: p in img.vtable && q in img.vtable && p != q ==>
          img.vtable[p] != img.vtable[q])
    && (forall a :: a in img.mem && HasDummyFingerprint(img.mem[a]) ==>
          exists p :: p in img.vtable && img.vtable[p] == a)
  }

  /** `(base as usize) + key`: the sum, less 2^64 when it overflows. */
  function AddrAt(base: Usize, key: Usize): (a: Usize)
    ensures a == base + key || a + WORD == base + key
  {
    (base + key) % WORD
  }

  /** `(addr as usize) - (base as usize)`, wrapping: adding it back to the base recovers the address. */
  function Offset(base: Usize, addr: Usize): (k: Usize)
    ensures AddrAt(base, k) == addr
  {
    (addr - base) % WORD
  }

  /**
   * `get_ty_const_key::<D, T>()`. Calling it requires `D: TyConst<T>`,
   * and the call is what makes the compiler emit the vtable of the pair.
   * The key is a pure offset: adding it to the base gives back that vtable.
   */
  function TyConstKey<V>(img: Image<V>, p: Pair): (k: Usize)
    requires p in img.vtable
    ensures AddrAt(img.base, k) == img.vtable[p]
  {
    Offset(img.base, img.vtable[p])
  }

  /**
   * `get_ty_const::<D>(key)`: readability, then the Dummy fingerprint,
   * then the type id, each failing check giving `None`.
   */
  function GetTyConst<V>(img: Image<V>, table: TypeId, key: Usize): (r: Option<V>)
    ensures r.Some? ==> var a := AddrAt(img.base, key);
                        a in img.mem && HasDummyFingerprint(img.mem[a]) &&
                        img.mem[a].typeId == table && r.value == img.mem[a].data
  {
    var addr := AddrAt(img.base, key);
    if addr !in img.mem then None
    else if !HasDummyFingerprint(img.mem[addr]) then None
    else if img.mem[addr].typeId != table then None
    else Some(img.mem[addr].data)
  }

  /** Keys round-trip: the key of `(D, T)` looks up `<D as TyConst<T>>::get_data()`. */
  lemma KeyRoundTrip<V>(img: Image<V>, p: Pair)
    requires Valid(img) && p in img.vtable
    ensures GetTyConst(img, p.table, TyConstKey(img, p)) == Some(img.impls[p])
  {
    var a := img.vtable[p];
    assert AddrAt(img.base, TyConstKey(img, p)) == a;
    assert img.mem[a] == DummyVtable(img, p);
  }

  /**
   * The executable is loaded `d` bytes further on (wrapping): the base and
   * every Dummy vtable move together, and the same pairs are in use.
   * Nothing is said about the rest of memory (heap, stack, other libraries).
   */
  ghost predicate Moved<V>(img1: Image<V>, img2: Image<V>, d: Usize)
  {
    && img2.base == AddrAt(img1.base, d)
    && img2.vtable.Keys == img1.vtable.Keys
    && (forall p :: p in img1.vtable ==> img2.vtable[p] == AddrAt(img1.vtable[p], d))
  }

  /**
   * A later execution of the same program: the executable moved, and every
   * pair in use has the same data.
   */
  ghost predicate Relocated<V>(img1: Image<V>, img2: Image<V>, d: Usize)
  {
    && Moved(img1, img2, d)
    && (forall p :: p in img1.vtable ==> p in img1.impls && p in img2.impls && img2.impls[p] == img1.impls[p])
  }

  /** Two wrapping additions can be done in either order. */
  lemma AddrAtCommutes(b: Usize, x: Usize, y: Usize)
    ensures AddrAt(AddrAt(b, x), y) == AddrAt(AddrAt(b, y), x)
  {
    AddrAtTwice(b, x, y);
    AddrAtTwice(b, y, x);
  }

  lemma AddrAtTwice(b: Usize, x: Usize, y: Usize)
    ensures AddrAt(AddrAt(b, x), y) == (b + x + y) % WORD
  {
    if b + x >= WORD {
      assert AddrAt(b, x) == b + x - WORD;
    }
  }

  /** Persistence: once the executable has moved, every pair still has the same key. */
  lemma KeySurvivesRelocation<V>(img1: Image<V>, img2: Image<V>, d: Usize, p: Pair)
    requires Moved(img1, img2, d) && p in img1.vtable
    ensures p in img2.vtable && TyConstKey(img2, p) == TyConstKey(img1, p)
  {
    var k1, k2 := TyConstKey(img1, p), TyConstKey(img2, p);
    AddrAtCommutes(img1.base, d, k1);
    assert AddrAt(img2.base, k1) == img2.vtable[p] == AddrAt(img2.base, k2);
    AddrAtInjective(img2.base, k1, k2);
  }

  /**
   * A key saved in one execution is valid in a later one: it finds the
   * data of the pair it was made for.
   */
  lemma KeyUsableInLaterRun<V>(img1: Image<V>, img2: Image<V>, d: Usize, p: Pair)
    requires Valid(img2) && Relocated(img1, img2, d) && p in img1.vtable
    ensures GetTyConst(img2, p.table, TyConstKey(img1, p)) == Some(img1.impls[p])
  {
    KeySurvivesRelocation(img1, img2, d, p);
    KeyRoundTrip(img2, p);
  }

  /**
   * Persistence: when both executions meet the layout assumptions, every
   * key looks up the same thing in every table after relocation.
   */
  lemma LookupSurvivesRelocation<V>(img1: Image<V>, img2: Image<V>, d: Usize, table: TypeId, key: Usize)
    requires Valid(img1) && Valid(img2) && Relocated(img1, img2, d)
    ensures GetTyConst(img2, table, key) == GetTyConst(img1, table, key)
  {
    if GetTyConst(img1, table, key).Some? {
      LookupSound(img1, table, key);
      var p :| p in img1.vtable && p.table == table && TyConstKey(img1, p) == key &&
               GetTyConst(img1, table, key) == Some(img1.impls[p]);
      KeyUsableInLaterRun(img1, img2, d, p);
    } else if GetTyConst(img2, table, key).Some? {
      LookupSound(img2, table, key);
      var p :| p in img2.vtable && p.table == table && TyConstKey(img2, p) == key &&
               GetTyConst(img2, table, key) == Some(img2.impls[p]);
      KeySurvivesRelocation(img1, img2, d, p);
      KeyRoundTrip(img1, p);
      assert false;
    }
  }

  /** Key 0 points at the base vtable itself, which is no Dummy vtable. */
  lemma ZeroKeyGivesNone<V>(img: Image<V>, table: TypeId)
    requires Valid(img)
    ensures GetTyConst(img, table, 0) == None
  {
    assert AddrAt(img.base, 0) == img.base;
  }

  /** Within a table, every type has its own key. */
  lemma KeysAreUnique<V>(img: Image<V>, p: Pair, q: Pair)
    requires Valid(img) && p in img.vtable && q in img.vtable
    requires p.table == q.table && p.ty != q.ty
    ensures TyConstKey(img, p) != TyConstKey(img, q)
  {
    assert img.vtable[p] != img.vtable[q];
  }

  /** A key whose target address cannot be read gives `None`. */
  lemma UnreadableGivesNone<V>(img: Image<V>, table: TypeId, key: Usize)
    requires AddrAt(img.base, key) !in img.mem
    ensures GetTyConst(img, table, key) == None
  {
  }

  /** A key whose target lacks the Dummy fingerprint gives `None`. */
  lemma WrongFingerprintGivesNone<V>(img: Image<V>, table: TypeId, key: Usize)
    requires AddrAt(img.base, key) in img.mem
    requires img.mem[AddrAt(img.base, key)].size != MAGIC
          || img.mem[AddrAt(img.base, key)].align != 1
    ensures GetTyConst(img, table, key) == None
  {
  }

  /** Table isolation: the key of `(D', T)` is rejected by every other table `D`. */
  lemma TableIsolation<V>(img: Image<V>, p: Pair, table: TypeId)
    requires Valid(img) && p in img.vtable && table != p.table
    ensures GetTyConst(img, table, TyConstKey(img, p)) == None
  {
    var a := img.vtable[p];
    assert AddrAt(img.base, TyConstKey(img, p)) == a;
    assert img.mem[a].typeId == p.table;
  }

  /**
   * Soundness of `Some`: a successful lookup means the key is the key of
   * some `(D, T)` in the table of `D` and the value is that pair's data.
   */
  lemma LookupSound<V>(img: Image<V>, table: TypeId, key: Usize)
    requires Valid(img) && GetTyConst(img, table, key).Some?
    ensures exists p :: p in img.vtable && p.table == table && TyConstKey(img, p) == key &&
                        GetTyConst(img, table, key) == Some(img.impls[p])
  {
    var a := AddrAt(img.base, key);
    assert a in img.mem && HasDummyFingerprint(img.mem[a]);
    var p :| p in img.vtable && img.vtable[p] == a;
    assert img.mem[a] == DummyVtable(img, p);
    assert TyConstKey(img, p) == key by {
      var k := TyConstKey(img, p);
      assert AddrAt(img.base, k) == AddrAt(img.base, key);
      AddrAtInjective(img.base, k, key);
    }
  }

  /** A key that is not the key of any `(D, T)` in the table of `D` gives `None`. */
  lemma UnknownKeyGivesNone<V>(img: Image<V>, table: TypeId, key: Usize)
    requires Valid(img)
    requires forall p :: p in img.vtable && p.table == table ==> TyConstKey(img, p) != key
    ensures GetTyConst(img, table, key) == None
  {
    if GetTyConst(img, table, key).Some? {
      LookupSound(img, table, key);
    }
  }

  /** Adding to a fixed base is one-to-one on `usize`. */
  lemma AddrAtInjective(base: Usize, k1: Usize, k2: Usize)
    requires AddrAt(base, k1) == AddrAt(base, k2)
    ensures k1 == k2
  {
    assert AddrAt(base, k1) == if base + k1 < WORD then base + k1 else base + k1 - WORD;
  }

  /**
   * Together with `KeyRoundTrip`: a lookup in table `D` succeeds exactly
   * for the keys of the pairs `(D, T)`, and then gives their data.
   */
  lemma LookupExact<V>(img: Image<V>, table: TypeId, key: Usize, x: V)
    requires Valid(img)
    ensures GetTyConst(img, table, key) == Some(x) <==>
            exists p :: p in img.vtable && p.table == table && TyConstKey(img, p) == key &&
                        img.impls[p] == x
  {
    if GetTyConst(img, table, key) == Some(x) {
      LookupSound(img, table, key);
    }
    if exists p :: p in img.vtable && p.table == table && TyConstKey(img, p) == key &&
                   img.impls[p] == x {
      var p :| p in img.vtable && p.table == table && TyConstKey(img, p) == key &&
               img.impls[p] == x;
      KeyRoundTrip(img, p);
    }
  }

  /**
   * The example of the library's documentation: a table `Size` holding
   * `size_of::<T>()`, filled for `()` (size 0) and `i64` (size 8). Key 1
   * lands one byte inside the base vtable: readable, but what is read
   * there does not carry the Dummy fingerprint.
   */
  lemma SizeTableExample()
    ensures var size, unit, i64 := 1, 10, 11;
            var img := Image(1000,
                             map[1000 := Vtable(0, 1, 99, 0),
                                 1001 := Vtable(0x100, 0, 99, 0),
                                 1200 := Vtable(MAGIC, 1, size, 0),
                                 1240 := Vtable(MAGIC, 1, size, 8)],
                             map[Pair(size, unit) := 1200, Pair(size, i64) := 1240],
                             map[Pair(size, unit) := 0, Pair(size, i64) := 8]);
            && Valid(img)
            && GetTyConst(img, size, TyConstKey(img, Pair(size, unit))) == Some(0)
            && GetTyConst(img, size, TyConstKey(img, Pair(size, i64))) == Some(8)
            && GetTyConst(img, size, 1) == None
  {
    var size, unit, i64 := 1, 10, 11;
    var img := Image(1000,
                     map[1000 := Vtable(0, 1, 99, 0),
                         1001 := Vtable(0x100, 0, 99, 0),
                         1200 := Vtable(MAGIC, 1, size, 0),
                         1240 := Vtable(MAGIC, 1, size, 8)],
                     map[Pair(size, unit) := 1200, Pair(size, i64) := 1240],
                     map[Pair(size, unit) := 0, Pair(size, i64) := 8]);
    forall a | a in img.mem && HasDummyFingerprint(img.mem[a])
      ensures exists p :: p in img.vtable && img.vtable[p] == a
    {
      if a == 1200 {
        assert img.vtable[Pair(size, unit)] == a;
      } else {
        assert img.vtable[Pair(size, i64)] == a;
      }
    }
    assert Valid(img);
    KeyRoundTrip(img, Pair(size, unit));
    KeyRoundTrip(img, Pair(size, i64));
    assert AddrAt(img.base, 1) == 1001 && !HasDummyFingerprint(img.mem[1001]);
  }

  /**
   * A later run in which only the executable moves, by 2000 bytes: the
   * heap record at 5000 in the first run is not at 7000 in the second,
   * and a different record sits elsewhere. The saved key still works.
   */
  lemma LaterRunExample()
    ensures var size, unit := 1, 10;
            var img1 := Image(1000,
                              map[1000 := Vtable(0, 1, 99, 0),
                                  1200 := Vtable(MAGIC, 1, size, 0),
                                  5000 := Vtable(3, 8, 99, 0)],
                              map[Pair(size, unit) := 1200],
                              map[Pair(size, unit) := 0]);
            var img2 := Image(3000,
                              map[3000 := Vtable(0, 1, 99, 0),
                                  3200 := Vtable(MAGIC, 1, size, 0),
                                  7777 := Vtable(5, 8, 99, 0)],
                              map[Pair(size, unit) := 3200],
                              map[Pair(size, unit) := 0]);
            && Valid(img1) && Valid(img2) && Relocated(img1, img2, 2000)
            && AddrAt(5000, 2000) !in img2.mem
            && GetTyConst(img2, size, TyConstKey(img1, Pair(size, unit))) == Some(0)
  {
    var size, unit := 1, 10;
    var img1 := Image(1000,
                      map[1000 := Vtable(0, 1, 99, 0),
                          1200 := Vtable(MAGIC, 1, size, 0),
                          5000 := Vtable(3, 8, 99, 0)],
                      map[Pair(size, unit) := 1200],
                      map[Pair(size, unit) := 0]);
    var img2 := Image(3000,
                      map[3000 := Vtable(0, 1, 99, 0),
                          3200 := Vtable(MAGIC, 1, size, 0),
                          7777 := Vtable(5, 8, 99, 0)],
                      map[Pair(size, unit) := 3200],
                      map[Pair(size, unit) := 0]);
    assert img1.vtable[Pair(size, unit)] == 1200;
    assert img2.vtable[Pair(size, unit)] == 3200;
    assert Valid(img1);
    assert Valid(img2);
    assert Relocated(img1, img2, 2000);
    KeyUsableInLaterRun(img1, img2, 2000, Pair(size, unit));
  }
}
