/**
 An RHI descriptor as reflected from a shader: the fields that identify it,
 the fields only descriptor-set updates use, its two constructors, and its
 memoised hash. The hash-combine function and the numeric values of the
 descriptor-type enumeration are defined elsewhere; they are parameters here.
 */
module Descriptors {

  /** The descriptor types the model distinguishes; the rest are told apart by their ordinal. */
  datatype DescriptorType = Undefined | TextureStorage | OtherType(ordinal: nat)

  datatype ImageLayout = LayoutUndefined | Layout(ordinal: nat)

  /** The hash primitives: hash_combine and the integer value of a descriptor type. */
  datatype Hashing = Hashing(combine: (nat, nat) -> nat, typeValue: DescriptorType -> nat)

  datatype Descriptor = Descriptor(
    descriptorType: DescriptorType,
    slot: nat,
    stage: nat,
    arraySize: nat,
    range: nat,          // bytes used by a descriptor update
    mip: nat,
    mipRange: nat,
    data: nat,           // address of the bound data, 0 for none
    dynamicOffset: nat,  // offset for dynamic constant buffers
    layout: ImageLayout,
    name: string,
    hash: nat)           // cached hash, 0 until computed

  /** A default-constructed descriptor. */
  function Default(): (d: Descriptor)
    ensures d.descriptorType == Undefined && d.layout == LayoutUndefined && d.hash == 0
  {
    Descriptor(Undefined, 0, 0, 0, 0, 0, 0, 0, 0, LayoutUndefined, "", 0)
  }

  /**
   The copy constructor: type, layout, slot, stage, name, mip and array
   size are copied; range, mip range, data and dynamic offset are left at
   their defaults, and so is the hash cache.
   */
  function Copy(d: Descriptor): (c: Descriptor)
    ensures c.descriptorType == d.descriptorType && c.layout == d.layout && c.slot == d.slot
    ensures c.stage == d.stage && c.name == d.name && c.mip == d.mip && c.arraySize == d.arraySize
    ensures c.range == 0 && c.mipRange == 0 && c.data == 0 && c.dynamicOffset == 0 && c.hash == 0
  {
    Default().(descriptorType := d.descriptorType, layout := d.layout, slot := d.slot, stage := d.stage,
               name := d.name, mip := d.mip, arraySize := d.arraySize)
  }

  /** The field constructor: the given identity, everything else at its default (mip 0, hash not computed). */
  function Make(name: string, descriptorType: DescriptorType, layout: ImageLayout,
                slot: nat, arraySize: nat, stage: nat): (d: Descriptor)
    ensures d.name == name && d.descriptorType == descriptorType && d.layout == layout
    ensures d.slot == slot && d.arraySize == arraySize && d.stage == stage
    ensures d.mip == 0 && d.mipRange == 0 && d.range == 0 && d.data == 0 && d.dynamicOffset == 0
    ensures d.hash == 0
  {
    Default().(name := name, descriptorType := descriptorType, layout := layout,
               slot := slot, arraySize := arraySize, stage := stage)
  }

  /** hash_combine folded over a list of values, from a seed. */
  function Fold(combine: (nat, nat) -> nat, seed: nat, values: seq<nat>): nat
    decreases |values|
  {
    if values == [] then seed else Fold(combine, combine(seed, values[0]), values[1..])
  }

  /** Folding over four values combines them one after the other, first value innermost. */
  lemma FoldOfFour(combine: (nat, nat) -> nat, seed: nat, v: seq<nat>)
    requires |v| == 4
    ensures Fold(combine, seed, v) == combine(combine(combine(combine(seed, v[0]), v[1]), v[2]), v[3])
  {
    var s1 := combine(seed, v[0]);
    var s2 := combine(s1, v[1]);
    var s3 := combine(s2, v[2]);
    assert v[1..][1..][1..][1..] == [];
    calc {
      Fold(combine, seed, v);
      Fold(combine, s1, v[1..]);
      Fold(combine, s2, v[1..][1..]);
      Fold(combine, s3, v[1..][1..][1..]);
      Fold(combine, combine(s3, v[3]), v[1..][1..][1..][1..]);
    }
  }

  /** The values that identify a descriptor, in the order they are hashed. */
  function HashedFields(h: Hashing, d: Descriptor): (v: seq<nat>)
    ensures |v| == 4
  {
    [h.typeValue(d.descriptorType), d.slot, d.stage, d.arraySize]
  }

  /**
   ComputeHash. A non-zero cache is returned as it is; otherwise the hash is
   hash_combine folded over type, slot, stage and array size from 0, stored
   and returned.
   */
  function ComputeHash(h: Hashing, d: Descriptor): (r: (nat, Descriptor))
    ensures r.1 == d.(hash := r.0)
    ensures d.hash != 0 ==> r.0 == d.hash
    ensures d.hash == 0 ==>
      r.0 == h.combine(h.combine(h.combine(h.combine(0, h.typeValue(d.descriptorType)), d.slot), d.stage), d.arraySize)
  {
    if d.hash == 0 then
      var hash := Fold(h.combine, 0, HashedFields(h, d));
      FoldOfFour(h.combine, 0, HashedFields(h, d));
      (hash, d.(hash := hash))
    else (d.hash, d)
  }

  /** Asking twice gives the same hash and leaves the descriptor as the first call did. */
  lemma HashIsMemoised(h: Hashing, d: Descriptor)
    ensures var first := ComputeHash(h, d); ComputeHash(h, first.1) == first
  {
  }

  /** Two descriptors that agree on type, slot, stage and array size get the same fresh hash. */
  predicate SameIdentity(a: Descriptor, b: Descriptor) {
    a.descriptorType == b.descriptorType && a.slot == b.slot && a.stage == b.stage && a.arraySize == b.arraySize
  }

  /**
   The hash ignores range, mip, mip range, data, dynamic offset, layout and
   name: descriptors that differ only in those hash alike.
   */
  lemma HashIgnoresUpdateFields(h: Hashing, a: Descriptor, b: Descriptor)
    requires a.hash == 0 && b.hash == 0 && SameIdentity(a, b)
    ensures ComputeHash(h, a).0 == ComputeHash(h, b).0
  {
  }

  /** The fresh hash of a descriptor, as its cache would hold once computed. */
  function FreshHash(h: Hashing, d: Descriptor): nat {
    ComputeHash(h, d.(hash := 0)).0
  }

  /**
   A copy hashes like its original, provided the original's cache is empty
   or up to date: the copy recomputes from the same identifying fields.
   */
  lemma CopyHashesAlike(h: Hashing, d: Descriptor)
    requires d.hash == 0 || d.hash == FreshHash(h, d)
    ensures ComputeHash(h, Copy(d)).0 == ComputeHash(h, d).0
  {
    HashIgnoresUpdateFields(h, Copy(d), d.(hash := 0));
  }

  /**
   The fields are public, so one changed after hashing is not seen by the
   cache: the stale hash keeps being returned.
   */
  lemma CacheIsNotInvalidated(h: Hashing, d: Descriptor, slot: nat)
    requires d.hash != 0
    ensures ComputeHash(h, d.(slot := slot)).0 == d.hash
  {
  }

  function IsStorage(d: Descriptor): bool { d.descriptorType == TextureStorage }

  function IsArray(d: Descriptor): bool { d.arraySize > 0 }

  /** A descriptor made from fields is a storage texture or an array exactly when its type and array size say so; copying keeps both. */
  lemma KindQueries(name: string, descriptorType: DescriptorType, layout: ImageLayout, slot: nat, arraySize: nat, stage: nat, d: Descriptor)
    ensures IsStorage(Make(name, descriptorType, layout, slot, arraySize, stage)) <==> descriptorType == TextureStorage
    ensures IsArray(Make(name, descriptorType, layout, slot, arraySize, stage)) <==> arraySize > 0
    ensures IsStorage(Copy(d)) == IsStorage(d) && IsArray(Copy(d)) == IsArray(d)
  {
  }
}
