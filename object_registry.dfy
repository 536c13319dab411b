/**
 * ObjectRegistry: the table that binds 64-bit handles to live objects, kept
 * in a Guava HashBiMap so that it can be read in both directions.
 */
module Registry {
  import opened Wrappers
  import opened CoreValues

  /** A `HashBiMap<Long, Object>`: the map together with its inverse view. */
  datatype BiMap = BiMap(forward: map<i64, Obj>, backward: map<Obj, i64>) {

    /** The two directions are inverse to each other. */
    ghost predicate Valid()
    {
      && (forall k | k in forward :: forward[k] in backward && backward[forward[k]] == k)
      && (forall o | o in backward :: backward[o] in forward && forward[backward[o]] == o)
    }

    /** `inverse().get(o)`: the handle of `o`, if it has one. */
    function KeyOf(o: Obj): (r: Option<i64>)
      requires Valid()
      ensures r.Some? <==> o in forward.Values
      ensures r.Some? ==> r.value in forward && forward[r.value] == o
    {
      if o in backward then Some(backward[o]) else None
    }

    /** `getObject(k)` on this table: an unbound key, or one bound to null, is an error. */
    function Get(k: i64): (r: Result<Obj, Fault>)
      ensures r.Ok? <==> k in forward && forward[k] != Null
      ensures r.Ok? ==> r.value == forward[k]
      ensures r.Err? ==> r.error == ObjectNotFound(k)
    {
      if k in forward && forward[k] != Null then Ok(forward[k]) else Err(ObjectNotFound(k))
    }

    /**
     * `put(k, o)`: a value already bound to another key is refused with an
     * IllegalArgumentException; otherwise `k` is (re)bound to `o` and the
     * inverse view follows.
     */
    function Put(k: i64, o: Obj): (r: Result<BiMap, Fault>)
      requires Valid()
      ensures r.Err? <==> o in forward.Values && KeyOf(o) != Some(k)
      ensures r.Err? ==> r.error == ValueAlreadyPresent
      ensures r.Ok? ==> r.value.Valid() && r.value.forward == forward[k := o]
    {
      if o in backward && backward[o] != k then Err(ValueAlreadyPresent)
      else
        var b := if k in forward then backward - {forward[k]} else backward;
        Ok(BiMap(forward[k := o], b[o := k]))
    }
  }

  const Empty: BiMap := BiMap(map[], map[])

  /** A valid BiMap is injective: two handles never share an object. */
  lemma Injective(m: BiMap, k1: i64, k2: i64)
    requires m.Valid() && k1 in m.forward && k2 in m.forward && k1 != k2
    ensures m.forward[k1] != m.forward[k2]
  {
    assert m.backward[m.forward[k1]] == k1;
    assert m.backward[m.forward[k2]] == k2;
  }

  /** The inverse view of a valid BiMap is determined by its forward map. */
  lemma DeterminedByForward(a: BiMap, b: BiMap)
    requires a.Valid() && b.Valid() && a.forward == b.forward
    ensures a == b
  {
    forall o | o in a.backward
      ensures o in b.backward && b.backward[o] == a.backward[o]
    {
      var k := a.backward[o];
      assert b.backward[b.forward[k]] == k;
    }
    forall o | o in b.backward
      ensures o in a.backward
    {
      var k := b.backward[o];
      assert a.backward[a.forward[k]] == k;
    }
    assert a.backward.Keys == b.backward.Keys;
  }

  /** After `putObject(k, o)` succeeds, `k` is bound to `o` and `o`'s handle is `k`. */
  lemma PutThenLookup(m: BiMap, k: i64, o: Obj)
    requires m.Valid() && m.Put(k, o).Ok?
    ensures var m' := m.Put(k, o).value;
      k in m'.forward && m'.forward[k] == o && m'.KeyOf(o) == Some(k)
  {
    var m' := m.Put(k, o).value;
    assert m'.forward[k] == o;
  }

  /** `putObject(k, o)` changes the binding of `k` only: every other handle keeps its object. */
  lemma PutFrame(m: BiMap, k: i64, o: Obj, k': i64)
    requires m.Valid() && m.Put(k, o).Ok? && k' != k
    ensures var m' := m.Put(k, o).value;
      (k' in m'.forward <==> k' in m.forward) && (k' in m.forward ==> m'.forward[k'] == m.forward[k'])
  {
  }

  class ObjectRegistry {
    var objects: BiMap
    /** `Map<String, Class<?>>`, class names standing for classes; `None` is Java's null. */
    var classRemapping: Option<map<string, string>>

    ghost predicate Valid()
      reads this
    {
      objects.Valid()
    }

    /**
     * The constructor's argument is never read. The source reads the blank
     * final `classRemapping` before assigning it, which does not compile; the
     * model takes the field as null.
     */
    constructor (stringClassMap: map<string, string>)
      ensures Valid() && objects == Empty && classRemapping == None
    {
      objects := Empty;
      classRemapping := None;
    }

    /** `getObject(key)`: the object bound to `key`; an unbound key (or one bound to null) throws. */
    method GetObject(key: i64) returns (r: Result<Obj, Fault>)
      ensures r.Ok? <==> key in objects.forward && objects.forward[key] != Null
      ensures r.Ok? ==> r.value == objects.forward[key]
      ensures r.Err? ==> r.error == ObjectNotFound(key)
      ensures r == objects.Get(key)
    {
      if key in objects.forward && objects.forward[key] != Null {
        r := Ok(objects.forward[key]);
      } else {
        r := Err(ObjectNotFound(key));
      }
    }

    method HasKey(key: i64) returns (b: bool)
      ensures b <==> key in objects.forward
    {
      b := key in objects.forward;
    }

    /** `getKey(o)`: the handle bound to `o`, the exact inverse of `getObject`. */
    method GetKey(o: Obj) returns (r: Option<i64>)
      requires Valid()
      ensures r.Some? <==> o in objects.forward.Values
      ensures r.Some? ==> r.value in objects.forward && objects.forward[r.value] == o
    {
      r := objects.KeyOf(o);
    }

    /** `putObject(key, o)`: binds `key` to `o` unless `o` already has another handle. */
    method PutObject(key: i64, o: Obj) returns (r: Result<(), Fault>)
      requires Valid()
      modifies this
      ensures Valid() && classRemapping == old(classRemapping)
      ensures r.Err? <==> o in old(objects.forward.Values) && old(objects.KeyOf(o)) != Some(key)
      ensures r.Ok? ==> objects.forward == old(objects.forward)[key := o]
      ensures r.Err? ==> r.error == ValueAlreadyPresent && objects == old(objects)
    {
      var put := objects.Put(key, o);
      if put.Ok? {
        objects := put.value;
        r := Ok(());
      } else {
        r := Err(put.error);
      }
    }

    /** `clear()`: afterwards no handle is bound and no object has a handle. */
    method Clear()
      modifies this
      ensures Valid() && classRemapping == old(classRemapping)
      ensures objects.forward == map[] && objects.backward == map[]
    {
      objects := Empty;
    }

    /** `hasObject(o)` holds exactly when `getKey(o)` is present. */
    method HasObject(o: Obj) returns (b: bool)
      requires Valid()
      ensures b <==> objects.KeyOf(o).Some?
      ensures b <==> o in objects.forward.Values
    {
      b := o in objects.backward;
    }
  }
}
