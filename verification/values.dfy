/** JavaScript values as the library's object helpers see them, and the
    property-copying helper `merge` (xdm.js:193-212). */
module Values {
  import opened Wrappers

  /** A JavaScript value. An object carries its own enumerable properties in
      insertion order; a function is an object with a callable identity
      (`callable`), so that properties can be set on it like on any object. */
  datatype Value =
    | Undefined
    | Null
    | Bool(b: bool)
    | Num(n: int)
    | Str(s: string)
    | Obj(fields: seq<Field>, callable: Option<nat>)

  type Field = (string, Value)

  /** A function value with no own properties, identified by `ref`. */
  function Fn(ref: nat): Value {
    Obj([], Some(ref))
  }

  /** `typeof v === 'object'`: plain objects and `null`, not functions. */
  predicate IsObjectType(v: Value) {
    v.Null? || (v.Obj? && v.callable.None?)
  }

  function Keys(fs: seq<Field>): set<string> {
    set i | 0 <= i < |fs| :: fs[i].0
  }

  predicate UniqueKeys(fs: seq<Field>) {
    forall i, j :: 0 <= i < j < |fs| ==> fs[i].0 != fs[j].0
  }

  lemma KeysCons(fs: seq<Field>)
    requires |fs| > 0
    ensures Keys(fs) == {fs[0].0} + Keys(fs[1..])
  {
    forall x | x in Keys(fs) ensures x in {fs[0].0} + Keys(fs[1..]) {
      var i :| 0 <= i < |fs| && fs[i].0 == x;
      if i > 0 { assert fs[1..][i - 1].0 == x; }
    }
  }

  /** The names every plain object inherits from `Object.prototype`. */
  const ObjectPrototypeNames: set<string> := {
    "constructor", "hasOwnProperty", "isPrototypeOf", "propertyIsEnumerable", "toLocaleString",
    "toString", "valueOf", "__proto__", "__defineGetter__", "__defineSetter__",
    "__lookupGetter__", "__lookupSetter__"
  }

  /** The inherited accessor whose setter changes the prototype instead of
      creating an own property. */
  const ProtoName := "__proto__"

  /** `k in obj` for a plain object: an own or an inherited property. */
  predicate Has(fs: seq<Field>, k: string) {
    k in Keys(fs) || k in ObjectPrototypeNames
  }

  /** `obj[k]` for an own property. */
  function Lookup(fs: seq<Field>, k: string): (r: Option<Value>)
    ensures r.Some? <==> k in Keys(fs)
  {
    if |fs| == 0 then None
    else if fs[0].0 == k then Some(fs[0].1)
    else KeysCons(fs); Lookup(fs[1..], k)
  }

  /** `obj[k] = v`: replaces an own property in place or appends a new one. */
  function Put(fs: seq<Field>, k: string, v: Value): (r: seq<Field>)
    ensures Lookup(r, k) == Some(v)
    ensures forall k' :: k' != k ==> Lookup(r, k') == Lookup(fs, k')
    ensures Keys(r) == Keys(fs) + {k}
    ensures UniqueKeys(fs) ==> UniqueKeys(r)
  {
    if |fs| == 0 then [(k, v)]
    else if fs[0].0 == k then
      KeysCons(fs);
      KeysCons([(k, v)] + fs[1..]);
      assert ([(k, v)] + fs[1..])[1..] == fs[1..];
      [(k, v)] + fs[1..]
    else
      var r := [fs[0]] + Put(fs[1..], k, v);
      PutConsKeys(fs, k, v, r);
      r
  }

  lemma PutConsKeys(fs: seq<Field>, k: string, v: Value, r: seq<Field>)
    requires |fs| > 0 && fs[0].0 != k
    requires r == [fs[0]] + Put(fs[1..], k, v)
    ensures Keys(r) == Keys(fs) + {k}
    ensures UniqueKeys(fs) ==> UniqueKeys(r)
  {
    KeysCons(fs);
    KeysCons(r);
    assert r[1..] == Put(fs[1..], k, v);
    if UniqueKeys(fs) {
      forall j | 0 <= j < |fs[1..]| ensures fs[1..][j].0 != fs[0].0 {
        assert fs[1..][j] == fs[j + 1];
      }
      assert fs[0].0 !in Keys(fs[1..]);
      assert UniqueKeys(fs[1..]) by {
        forall i, j | 0 <= i < j < |fs[1..]| ensures fs[1..][i].0 != fs[1..][j].0 {
          assert fs[1..][i] == fs[i + 1] && fs[1..][j] == fs[j + 1];
        }
      }
      forall i, j | 0 <= i < j < |r| ensures r[i].0 != r[j].0 {
        if i == 0 {
          assert r[j] == r[1..][j - 1];
          assert r[j].0 in Keys(r[1..]);
        } else {
          assert r[i] == r[1..][i - 1] && r[j] == r[1..][j - 1];
        }
      }
    }
  }

  /** `merge(destination, source, noOverwrite)`: copies the own properties of
      `source` into `destination`, recursing into object-typed members whose
      name the destination already has, own or inherited; with `noOverwrite`
      an existing non-object member is kept. Searching a property on a
      primitive destination throws. */
  function Merge(dest: Value, src: Value, noOverwrite: bool): Result<Value>
    requires IsObjectType(src)
    decreases src, 1
  {
    if src.Null? then Ok(dest) else MergeFrom(dest, src, 0, noOverwrite)
  }

  /** The `for (var prop in source)` loop of `merge`, from the `i`-th property on. */
  function MergeFrom(dest: Value, src: Value, i: nat, noOverwrite: bool): Result<Value>
    requires src.Obj? && i <= |src.fields|
    decreases src, 0, |src.fields| - i
  {
    if i == |src.fields| then Ok(dest)
    else if !dest.Obj? then Err("Cannot use 'in' operator to search for '" + src.fields[i].0 + "'")
    else
      var k := src.fields[i].0;
      var v := src.fields[i].1;
      assert src.fields[i] in src.fields;
      var next :- match Lookup(dest.fields, k)
        case Some(existing) =>
          if IsObjectType(v) then
            var merged :- Merge(existing, v, noOverwrite);
            Ok(Put(dest.fields, k, merged))
          else if noOverwrite then Ok(dest.fields)
          else Ok(Put(dest.fields, k, v))
        case None =>
          // An inherited member: an object-typed source member is merged into
          // the shared built-in, and `__proto__ = v` creates no own property.
          if k in ObjectPrototypeNames && (IsObjectType(v) || noOverwrite || k == ProtoName) then Ok(dest.fields)
          else Ok(Put(dest.fields, k, v));
      MergeFrom(Obj(next, dest.callable), src, i + 1, noOverwrite)
  }

  /** No member of the object is itself of object type, so `merge` never recurses. */
  predicate Flat(src: Value) {
    && src.Obj? && src.callable.None?
    && forall i :: 0 <= i < |src.fields| ==> !IsObjectType(src.fields[i].1)
  }

  /** The value `merge` leaves under `k` when the source is flat: the source's
      member is copied when the destination lacks `k`, own or inherited, or
      overwriting is allowed, unless it would land in the `__proto__` setter. */
  function MergedMember(dest: seq<Field>, src: seq<Field>, k: string, noOverwrite: bool): Option<Value> {
    if Lookup(src, k).Some? && (!Has(dest, k) || !noOverwrite) && !(k == ProtoName && k !in Keys(dest)) then Lookup(src, k)
    else Lookup(dest, k)
  }

  /** One round of the loop over a flat source moves the field from the
      source's remainder into the destination without changing the outcome. */
  lemma MergedMemberStep(dest: seq<Field>, k: string, v: Value, rest: seq<Field>, k': string, noOverwrite: bool)
    requires k !in Keys(rest)
    ensures MergedMember(FlatStep(dest, k, v, noOverwrite), rest, k', noOverwrite)
         == MergedMember(dest, [(k, v)] + rest, k', noOverwrite)
  {
    assert ([(k, v)] + rest)[1..] == rest;
  }

  /** The names after a field of a source with unique names differ from it. */
  lemma NotInTail(fs: seq<Field>, i: nat)
    requires UniqueKeys(fs) && i < |fs|
    ensures fs[i].0 !in Keys(fs[i + 1..])
    ensures fs[i..] == [fs[i]] + fs[i + 1..]
  {
    var rest := fs[i + 1..];
    forall j | 0 <= j < |rest| ensures rest[j].0 != fs[i].0 {
      assert rest[j] == fs[i + 1 + j];
    }
  }

  /** The fields after one round of the loop over a flat source. */
  function FlatStep(dest: seq<Field>, k: string, v: Value, noOverwrite: bool): seq<Field> {
    if (Has(dest, k) && noOverwrite) || (k == ProtoName && k !in Keys(dest)) then dest else Put(dest, k, v)
  }

  lemma MergeFromStep(dest: Value, src: Value, i: nat, noOverwrite: bool)
    requires dest.Obj? && Flat(src) && i < |src.fields|
    ensures MergeFrom(dest, src, i, noOverwrite)
         == MergeFrom(Obj(FlatStep(dest.fields, src.fields[i].0, src.fields[i].1, noOverwrite), dest.callable),
                      src, i + 1, noOverwrite)
  {
    assert !IsObjectType(src.fields[i].1);
  }

  lemma {:induction false} MergeFromFlat(dest: Value, src: Value, i: nat, noOverwrite: bool)
    requires dest.Obj? && Flat(src) && UniqueKeys(src.fields) && i <= |src.fields|
    ensures MergeFrom(dest, src, i, noOverwrite).Ok?
    ensures var r := MergeFrom(dest, src, i, noOverwrite).value;
      && r.Obj? && r.callable == dest.callable
      && forall k :: Lookup(r.fields, k) == MergedMember(dest.fields, src.fields[i..], k, noOverwrite)
    decreases |src.fields| - i
  {
    if i < |src.fields| {
      var k := src.fields[i].0;
      var v := src.fields[i].1;
      var next := FlatStep(dest.fields, k, v, noOverwrite);
      MergeFromStep(dest, src, i, noOverwrite);
      MergeFromFlat(Obj(next, dest.callable), src, i + 1, noOverwrite);
      NotInTail(src.fields, i);
      forall k' ensures MergedMember(next, src.fields[i + 1..], k', noOverwrite)
                     == MergedMember(dest.fields, src.fields[i..], k', noOverwrite) {
        MergedMemberStep(dest.fields, k, v, src.fields[i + 1..], k', noOverwrite);
      }
    }
  }

  /** With a flat source (the forwarding defaults of the stack, say) `merge`
      cannot fail and leaves under every name the member described by
      `MergedMember`: with `noOverwrite` exactly the destination's own members
      survive and the source fills in only the names the destination neither
      has nor inherits; `__proto__` never becomes an own name. */
  lemma MergeFlat(dest: Value, src: Value, noOverwrite: bool)
    requires dest.Obj? && Flat(src) && UniqueKeys(src.fields)
    ensures Merge(dest, src, noOverwrite).Ok?
    ensures var r := Merge(dest, src, noOverwrite).value;
      && r.Obj? && r.callable == dest.callable
      && (forall k :: Lookup(r.fields, k) == MergedMember(dest.fields, src.fields, k, noOverwrite))
      && Keys(r.fields) == Keys(dest.fields) + (Keys(src.fields) - (if noOverwrite then ObjectPrototypeNames else {ProtoName}))
  {
    MergeFromFlat(dest, src, 0, noOverwrite);
    assert src.fields[0..] == src.fields;
    var r := Merge(dest, src, noOverwrite).value;
    forall k ensures k in Keys(r.fields) <==> k in Keys(dest.fields) + (Keys(src.fields) - (if noOverwrite then ObjectPrototypeNames else {ProtoName})) {
      assert Lookup(r.fields, k) == MergedMember(dest.fields, src.fields, k, noOverwrite);
    }
  }

  lemma {:induction false} MergeFromComplete(dest: Value, src: Value, i: nat)
    requires dest.Obj? && Flat(src) && i <= |src.fields|
    requires forall k :: k in Keys(src.fields) ==> Has(dest.fields, k)
    ensures MergeFrom(dest, src, i, true) == Ok(dest)
    decreases |src.fields| - i
  {
    if i < |src.fields| {
      assert src.fields[i].0 in Keys(src.fields);
      MergeFromComplete(dest, src, i + 1);
    }
  }

  /** When the destination already has, or inherits, every name of a flat
      source, `merge` with `noOverwrite` leaves it exactly as it was. */
  lemma MergeNoOverwriteComplete(dest: Value, src: Value)
    requires dest.Obj? && Flat(src)
    requires forall k :: k in Keys(src.fields) ==> Has(dest.fields, k)
    ensures Merge(dest, src, true) == Ok(dest)
  {
    MergeFromComplete(dest, src, 0);
  }

  /** Merging the same flat source twice with `noOverwrite` changes nothing the
      second time. */
  lemma MergeNoOverwriteIdempotent(dest: Value, src: Value)
    requires dest.Obj? && Flat(src) && UniqueKeys(src.fields)
    ensures Merge(dest, src, true).Ok?
    ensures var once := Merge(dest, src, true).value;
      && once.Obj?
      && Merge(once, src, true) == Ok(once)
  {
    MergeFlat(dest, src, true);
    var once := Merge(dest, src, true).value;
    MergeNoOverwriteComplete(once, src);
  }

  /** `merge({}, {toString: 1}, true)` adds nothing, since `toString` is
      inherited; without `noOverwrite` it becomes an own member. */
  lemma InheritedNameKept()
    ensures Merge(Obj([], None), Obj([("toString", Num(1))], None), true) == Ok(Obj([], None))
    ensures Merge(Obj([], None), Obj([("toString", Num(1))], None), false) == Ok(Obj([("toString", Num(1))], None))
  {
    assert "toString" in ObjectPrototypeNames;
  }

  /** Assigning through `__proto__` never creates an own member. */
  lemma ProtoNeverOwn(v: Value, noOverwrite: bool)
    requires !IsObjectType(v)
    ensures Merge(Obj([], None), Obj([(ProtoName, v)], None), noOverwrite) == Ok(Obj([], None))
  {
    var src := Obj([(ProtoName, v)], None);
    assert ProtoName in ObjectPrototypeNames && Lookup([], ProtoName).None?;
    assert MergeFrom(Obj([], None), src, 1, noOverwrite) == Ok(Obj([], None));
  }
}
