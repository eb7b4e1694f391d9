/**
 The derived codec for composite types: a field count, then for each field its type's OID
 and its length-prefixed value. Fields are matched by name, nested types recursively.
 */
module Composite {
  import opened Wrappers
  import opened Bytes
  import opened Sequences

  // ---------------------------------------------------------------------------
  // Types and values
  // ---------------------------------------------------------------------------

  /** A type of the server. */
  datatype PgType = PgScalar(oid: u32) | PgComposite(oid: u32, name: string, fields: seq<PgField>)

  datatype PgField = PgField(name: string, pgType: PgType)

  /** A deriving struct's type; `nullable` marks an optional field. */
  datatype Shape = Scalar(oid: u32) | Struct(name: string, fields: seq<ShapeField>)

  datatype ShapeField = ShapeField(name: string, shape: Shape, nullable: bool)

  /** A struct's fields are in the order of its declaration; None is NULL. */
  datatype Value = Leaf(bytes: seq<byte>) | Fields(values: seq<Option<Value>>)

  function Oid(t: PgType): u32 { t.oid }

  /** The declared field of that name, or none: the length. */
  function Find(fields: seq<ShapeField>, name: string): (k: nat)
    ensures k <= |fields|
    ensures k < |fields| ==> fields[k].name == name
    ensures forall i :: 0 <= i < k ==> fields[i].name != name
  {
    if fields == [] || fields[0].name == name then 0 else 1 + Find(fields[1..], name)
  }

  ghost predicate Distinct(fields: seq<PgField>) {
    forall i, j :: 0 <= i < j < |fields| ==> fields[i].name != fields[j].name
  }

  /** What the server guarantees of its types: distinct field names, and a limited number. */
  ghost predicate Declared(t: PgType) {
    t.PgComposite? ==>
      && Distinct(t.fields) && |t.fields| <= I32_MAX
      && forall i :: 0 <= i < |t.fields| ==> Declared(t.fields[i].pgType)
  }

  /** The generated acceptance test: the names agree, and so do the fields, in any order. */
  ghost predicate Accepts(s: Shape, t: PgType)
    decreases t
  {
    match t
    case PgScalar(oid) => s == Scalar(oid)
    case PgComposite(_, name, fields) =>
      && s.Struct? && s.name == name && |s.fields| == |fields|
      && forall i :: 0 <= i < |fields| ==>
           && Find(s.fields, fields[i].name) < |s.fields|
           && Accepts(s.fields[Find(s.fields, fields[i].name)].shape, fields[i].pgType)
  }

  /** The value has the struct's type. */
  ghost predicate Fits(s: Shape, v: Value)
    decreases v
  {
    match v
    case Leaf(_) => s.Scalar?
    case Fields(values) =>
      && s.Struct? && |values| == |s.fields|
      && forall k :: 0 <= k < |values| ==>
           if values[k].None? then s.fields[k].nullable else Fits(s.fields[k].shape, values[k].value)
  }

  // ---------------------------------------------------------------------------
  // Encoding
  // ---------------------------------------------------------------------------

  /** The value of the field that goes to the server's `i`-th field. */
  function Chosen(s: Shape, t: PgType, v: Value, i: nat): Option<Value>
    requires t.PgComposite? && i < |t.fields| && s.Struct? && v.Fields?
  {
    var k := Find(s.fields, t.fields[i].name);
    if k < |v.values| then v.values[k] else None
  }

  function ChosenShape(s: Shape, t: PgType, i: nat): Shape
    requires t.PgComposite? && i < |t.fields| && s.Struct?
  {
    var k := Find(s.fields, t.fields[i].name);
    if k < |s.fields| then s.fields[k].shape else s
  }

  function Encode(s: Shape, t: PgType, v: Value): Option<seq<byte>>
    decreases t, 1, 0
  {
    if v.Leaf? then Some(v.bytes)
    else if t.PgScalar? || s.Scalar? || |t.fields| > I32_MAX then None
    else match EncodeFields(s, t, v, 0)
      case None => None
      case Some(bytes) => Some(BE32(|t.fields|) + bytes)
  }

  /** The server's fields from the `i`-th on. */
  function EncodeFields(s: Shape, t: PgType, v: Value, i: nat): Option<seq<byte>>
    requires t.PgComposite? && s.Struct? && v.Fields? && i <= |t.fields|
    decreases t, 0, |t.fields| - i
  {
    if i == |t.fields| then Some([])
    else
      match EncodeSlot(ChosenShape(s, t, i), t.fields[i].pgType, Chosen(s, t, v, i))
      case None => None
      case Some(slot) =>
        match EncodeFields(s, t, v, i + 1)
        case None => None
        case Some(rest) => Some(BEU32(Oid(t.fields[i].pgType)) + slot + rest)
  }

  /** A length and the value, or the length -1; none when the length does not fit. */
  function EncodeSlot(s: Shape, t: PgType, v: Option<Value>): Option<seq<byte>>
    decreases t, 2, 0
  {
    if v.None? then Some(BE32(-1))
    else match Encode(s, t, v.value)
      case None => None
      case Some(bytes) => if |bytes| > I32_MAX then None else Some(BE32(|bytes|) + bytes)
  }

  // ---------------------------------------------------------------------------
  // Decoding
  // ---------------------------------------------------------------------------

  datatype DecodeError = InvalidBufferSize | InvalidFieldCount | UnexpectedOid | WasNull | MissingField

  /** What is left of the buffer and what was read. */
  datatype Read<+T> = Read(value: T, rest: seq<byte>)

  function ReadU32(buf: seq<byte>): Result<Read<u32>, DecodeError> {
    if |buf| < 4 then Err(InvalidBufferSize)
    else
      var oid: u32 := FromBE32U(buf[..4]);
      Ok(Read(oid, buf[4..]))
  }

  function ReadI32(buf: seq<byte>): Result<Read<i32>, DecodeError> {
    if |buf| < 4 then Err(InvalidBufferSize) else Ok(Read(FromBE32(buf[..4]), buf[4..]))
  }

  /** A length-prefixed chunk; any negative length means NULL. */
  function ReadChunk(buf: seq<byte>): Result<Read<Option<seq<byte>>>, DecodeError> {
    match ReadI32(buf)
    case Err(e) => Err(e)
    case Ok(Read(len, rest)) =>
      if len < 0 then Ok(Read(None, rest))
      else if |rest| < len then Err(InvalidBufferSize)
      else Ok(Read(Some(rest[..len]), rest[len..]))
  }

  /** The fields read so far, by position in the struct. */
  type Temps = seq<Option<Option<Value>>>

  function NoTemps(n: nat): (temps: Temps)
    ensures |temps| == n && forall k :: 0 <= k < n ==> temps[k] == None
  {
    seq(n, _ => None)
  }

  function Decode(s: Shape, t: PgType, buf: seq<byte>): Result<Value, DecodeError>
    decreases t, 1, 0
  {
    if t.PgScalar? || s.Scalar? then Ok(Leaf(buf))
    else
      match ReadI32(buf)
      case Err(e) => Err(e)
      case Ok(Read(count, rest)) =>
        if count != |t.fields| then Err(InvalidFieldCount)
        else match DecodeFields(s, t, 0, rest, NoTemps(|s.fields|))
          case Err(e) => Err(e)
          case Ok(temps) => Unwrap(temps)
  }

  /** Reads the server's fields from the `i`-th on. */
  function DecodeFields(s: Shape, t: PgType, i: nat, buf: seq<byte>, temps: Temps): Result<Temps, DecodeError>
    requires t.PgComposite? && s.Struct? && i <= |t.fields|
    decreases t, 0, |t.fields| - i
  {
    if i == |t.fields| then Ok(temps)
    else
      match ReadU32(buf)
      case Err(e) => Err(e)
      case Ok(Read(oid, rest)) =>
        if oid != Oid(t.fields[i].pgType) then Err(UnexpectedOid)
        else
          match ReadChunk(rest)
          case Err(e) => Err(e)
          case Ok(Read(chunk, rest')) =>
            var k := Find(s.fields, t.fields[i].name);
            if k >= |s.fields| || k >= |temps| then Err(MissingField)
            else match DecodeNullable(s.fields[k], t.fields[i].pgType, chunk)
              case Err(e) => Err(e)
              case Ok(v) => DecodeFields(s, t, i + 1, rest', temps[k := Some(v)])
  }

  function DecodeNullable(f: ShapeField, t: PgType, chunk: Option<seq<byte>>): Result<Option<Value>, DecodeError>
    decreases t, 2, 0
  {
    if chunk.None? then if f.nullable then Ok(None) else Err(WasNull)
    else match Decode(f.shape, t, chunk.value)
      case Err(e) => Err(e)
      case Ok(v) => Ok(Some(v))
  }

  /** Every field of the struct must have been read. */
  function Unwrap(temps: Temps): Result<Value, DecodeError> {
    if forall k :: 0 <= k < |temps| ==> temps[k].Some? then
      Ok(Fields(seq(|temps|, k requires 0 <= k < |temps| => temps[k].value)))
    else Err(MissingField)
  }

  // ---------------------------------------------------------------------------
  // Every field is matched
  // ---------------------------------------------------------------------------

  /** The struct positions of the server's first `n` fields. */
  ghost function Positions(s: seq<ShapeField>, fields: seq<PgField>, n: nat): set<nat>
    requires n <= |fields|
  {
    if n == 0 then {} else Positions(s, fields, n - 1) + {Find(s, fields[n - 1].name)}
  }

  ghost predicate AllFound(s: seq<ShapeField>, fields: seq<PgField>) {
    forall i :: 0 <= i < |fields| ==> Find(s, fields[i].name) < |s|
  }

  lemma {:induction false} FieldOfPosition(s: seq<ShapeField>, fields: seq<PgField>, n: nat, k: nat) returns (i: nat)
    requires n <= |fields| && k in Positions(s, fields, n)
    ensures i < n && k == Find(s, fields[i].name)
  {
    if k == Find(s, fields[n - 1].name) {
      i := n - 1;
    } else {
      i := FieldOfPosition(s, fields, n - 1, k);
    }
  }

  lemma {:induction false} PositionsCount(s: seq<ShapeField>, fields: seq<PgField>, n: nat)
    requires n <= |fields| && AllFound(s, fields) && Distinct(fields)
    ensures |Positions(s, fields, n)| == n && Positions(s, fields, n) <= Below(|s|)
  {
    if n > 0 {
      var k := Find(s, fields[n - 1].name);
      PositionsCount(s, fields, n - 1);
      BelowCount(|s|, k);
      if k in Positions(s, fields, n - 1) {
        var i := FieldOfPosition(s, fields, n - 1, k);
        assert false;
      }
    }
  }

  ghost function Below(n: nat): set<nat> { if n == 0 then {} else Below(n - 1) + {n - 1} }

  lemma {:induction false} BelowCount(n: nat, k: nat)
    ensures |Below(n)| == n
    ensures k in Below(n) <==> k < n
  {
    if n > 0 {
      BelowCount(n - 1, k);
      BelowCount(n - 1, n - 1);
    }
  }

  lemma SubsetOfSameSize(a: set<nat>, b: set<nat>)
    requires a <= b && |a| == |b|
    ensures a == b
  {
    assert b == a + (b - a);
    assert b - a == {};
  }

  /** As many fields, all found, no name twice: so every struct field is some server field. */
  lemma EveryFieldIsMatched(s: seq<ShapeField>, fields: seq<PgField>, k: nat) returns (i: nat)
    requires AllFound(s, fields) && Distinct(fields) && |s| == |fields| && k < |s|
    ensures i < |fields| && Find(s, fields[i].name) == k
  {
    var n := |s|;
    PositionsCount(s, fields, n);
    BelowCount(n, k);
    SubsetOfSameSize(Positions(s, fields, n), Below(n));
    i := FieldOfPosition(s, fields, n, k);
  }

  // ---------------------------------------------------------------------------
  // When encoding fails
  // ---------------------------------------------------------------------------

  /** The size of a value's encoding, whatever the limits. */
  function Size(s: Shape, t: PgType, v: Value): nat
    decreases t, 1, 0
  {
    if v.Leaf? then |v.bytes| else if t.PgScalar? || s.Scalar? then 0 else 4 + SizeFields(s, t, v, 0)
  }

  function SizeFields(s: Shape, t: PgType, v: Value, i: nat): nat
    requires t.PgComposite? && s.Struct? && v.Fields? && i <= |t.fields|
    decreases t, 0, |t.fields| - i
  {
    if i == |t.fields| then 0
    else
      var c := Chosen(s, t, v, i);
      8 + (if c.None? then 0 else Size(ChosenShape(s, t, i), t.fields[i].pgType, c.value)) + SizeFields(s, t, v, i + 1)
  }

  /** No field at any depth, NULLs aside, is larger than its length can say. */
  ghost predicate NoLargeField(s: Shape, t: PgType, v: Value)
    decreases t
  {
    v.Leaf? || t.PgScalar? || s.Scalar? ||
    forall i :: 0 <= i < |t.fields| && Chosen(s, t, v, i).Some? ==>
      && Size(ChosenShape(s, t, i), t.fields[i].pgType, Chosen(s, t, v, i).value) <= I32_MAX
      && NoLargeField(ChosenShape(s, t, i), t.fields[i].pgType, Chosen(s, t, v, i).value)
  }

  /** The same from the `i`-th of the server's fields on. */
  ghost predicate NoLargeFrom(s: Shape, t: PgType, v: Value, i: nat)
    requires t.PgComposite? && s.Struct? && v.Fields?
  {
    forall j :: i <= j < |t.fields| && Chosen(s, t, v, j).Some? ==>
      && Size(ChosenShape(s, t, j), t.fields[j].pgType, Chosen(s, t, v, j).value) <= I32_MAX
      && NoLargeField(ChosenShape(s, t, j), t.fields[j].pgType, Chosen(s, t, v, j).value)
  }

  /** The chosen field has the chosen type. */
  lemma ChosenFits(s: Shape, t: PgType, v: Value, i: nat)
    requires Accepts(s, t) && Declared(t) && Fits(s, v) && t.PgComposite? && i < |t.fields|
    ensures v.Fields? && Accepts(ChosenShape(s, t, i), t.fields[i].pgType) && Declared(t.fields[i].pgType)
    ensures Chosen(s, t, v, i).Some? ==> Fits(ChosenShape(s, t, i), Chosen(s, t, v, i).value)
    ensures Chosen(s, t, v, i).None? ==> s.fields[Find(s.fields, t.fields[i].name)].nullable
  {
    var k := Find(s.fields, t.fields[i].name);
    assert k < |s.fields|;
  }

  ghost predicate SizedAs(r: Option<seq<byte>>, fits: bool, size: nat) {
    (r.Some? <==> fits) && (r.Some? ==> |r.value| == size)
  }

  lemma {:induction false} EncodeFailsExactly(s: Shape, t: PgType, v: Value)
    requires Accepts(s, t) && Declared(t) && Fits(s, v)
    ensures SizedAs(Encode(s, t, v), NoLargeField(s, t, v), Size(s, t, v))
    decreases t, 1, 0
  {
    if t.PgComposite? {
      FieldsFailExactly(s, t, v, 0);
      assert NoLargeFrom(s, t, v, 0) <==> NoLargeField(s, t, v);
    }
  }

  lemma {:induction false} FieldsFailExactly(s: Shape, t: PgType, v: Value, i: nat)
    requires Accepts(s, t) && Declared(t) && Fits(s, v) && t.PgComposite? && i <= |t.fields|
    ensures SizedAs(EncodeFields(s, t, v, i), NoLargeFrom(s, t, v, i), SizeFields(s, t, v, i))
    decreases t, 0, |t.fields| - i
  {
    if i < |t.fields| {
      var shape, pgType, c := ChosenShape(s, t, i), t.fields[i].pgType, Chosen(s, t, v, i);
      ChosenFits(s, t, v, i);
      FieldsFailExactly(s, t, v, i + 1);
      if c.Some? {
        EncodeFailsExactly(shape, pgType, c.value);
      }
      NoLargeSplit(s, t, v, i);
    }
  }

  lemma NoLargeSplit(s: Shape, t: PgType, v: Value, i: nat)
    requires t.PgComposite? && s.Struct? && v.Fields? && i < |t.fields|
    ensures NoLargeFrom(s, t, v, i) <==>
              && NoLargeFrom(s, t, v, i + 1)
              && (Chosen(s, t, v, i).Some? ==>
                    && Size(ChosenShape(s, t, i), t.fields[i].pgType, Chosen(s, t, v, i).value) <= I32_MAX
                    && NoLargeField(ChosenShape(s, t, i), t.fields[i].pgType, Chosen(s, t, v, i).value))
  {}

  // ---------------------------------------------------------------------------
  // The layout
  // ---------------------------------------------------------------------------

  function Joined(parts: seq<seq<byte>>): seq<byte> { if parts == [] then [] else parts[0] + Joined(parts[1..]) }

  /**
   The bytes of a composite value as the server reads them: the number of fields, then for each
   of the server's fields, in the server's order, the OID of its type and either the length -1
   or the length and the bytes of the struct's field of that name.
   */
  ghost predicate IsLaidOut(s: Shape, t: PgType, v: Value, bytes: seq<byte>)
    decreases t, 1
  {
    match v
    case Leaf(leaf) => bytes == leaf
    case Fields(values) =>
      && t.PgComposite? && s.Struct? && |t.fields| <= I32_MAX
      && exists parts: seq<seq<byte>> ::
           && |parts| == |t.fields| && bytes == BEU32(|t.fields|) + Joined(parts)
           && forall i :: 0 <= i < |parts| ==> IsField(s, t, values, i, parts[i])
  }

  ghost predicate IsField(s: Shape, t: PgType, values: seq<Option<Value>>, i: nat, part: seq<byte>)
    requires t.PgComposite? && s.Struct? && i < |t.fields|
    decreases t, 0
  {
    var k := Find(s.fields, t.fields[i].name);
    && |part| >= 8 && part[..4] == BEU32(t.fields[i].pgType.oid)
    && if k >= |values| || values[k].None? then part[4..] == [255, 255, 255, 255]
       else
         && |part| - 8 <= I32_MAX && part[4..8] == BEU32(|part| - 8)
         && IsLaidOut(if k < |s.fields| then s.fields[k].shape else s, t.fields[i].pgType, values[k].value, part[8..])
  }

  lemma LengthBytes(n: nat)
    requires n <= I32_MAX
    ensures BE32(n) == BEU32(n) && BE32(-1) == [255, 255, 255, 255]
  {}

  lemma SlotOfField(s: Shape, t: PgType, v: Value, i: nat, slot: seq<byte>, part: seq<byte>)
    requires t.PgComposite? && s.Struct? && v.Fields? && i < |t.fields|
    requires EncodeSlot(ChosenShape(s, t, i), t.fields[i].pgType, Chosen(s, t, v, i)) == Some(slot)
    requires part == BEU32(Oid(t.fields[i].pgType)) + slot
    requires Chosen(s, t, v, i).Some? ==>
               forall b :: Encode(ChosenShape(s, t, i), t.fields[i].pgType, Chosen(s, t, v, i).value) == Some(b) ==>
                 IsLaidOut(ChosenShape(s, t, i), t.fields[i].pgType, Chosen(s, t, v, i).value, b)
    ensures IsField(s, t, v.values, i, part)
  {
    LengthBytes(0);
    if Chosen(s, t, v, i).Some? {
      var b := Encode(ChosenShape(s, t, i), t.fields[i].pgType, Chosen(s, t, v, i).value).value;
      LengthBytes(|b|);
      assert part[8..] == b && part[4..8] == BE32(|b|);
    } else {
      assert part[4..] == slot;
    }
  }

  lemma {:induction false} EncodingIsLaidOut(s: Shape, t: PgType, v: Value)
    requires Encode(s, t, v).Some?
    ensures IsLaidOut(s, t, v, Encode(s, t, v).value)
    decreases t, 1, 0
  {
    if v.Fields? {
      var parts := FieldsAreLaidOut(s, t, v, 0);
      LengthBytes(|t.fields|);
    }
  }

  lemma {:induction false} FieldsAreLaidOut(s: Shape, t: PgType, v: Value, i: nat) returns (parts: seq<seq<byte>>)
    requires t.PgComposite? && s.Struct? && v.Fields? && i <= |t.fields| && EncodeFields(s, t, v, i).Some?
    ensures |parts| == |t.fields| - i && EncodeFields(s, t, v, i).value == Joined(parts)
    ensures forall j :: 0 <= j < |parts| ==> IsField(s, t, v.values, i + j, parts[j])
    decreases t, 0, |t.fields| - i
  {
    if i == |t.fields| {
      parts := [];
    } else {
      var part := FirstIsLaidOut(s, t, v, i);
      var more := FieldsAreLaidOut(s, t, v, i + 1);
      parts := [part] + more;
      FieldsInFront(s, t, v.values, i, part, more);
    }
  }

  lemma {:induction false} FirstIsLaidOut(s: Shape, t: PgType, v: Value, i: nat) returns (part: seq<byte>)
    requires t.PgComposite? && s.Struct? && v.Fields? && i < |t.fields| && EncodeFields(s, t, v, i).Some?
    ensures IsField(s, t, v.values, i, part) && EncodeFields(s, t, v, i + 1).Some?
    ensures EncodeFields(s, t, v, i).value == part + EncodeFields(s, t, v, i + 1).value
    decreases t, 0, 0
  {
    var shape, pgType, c := ChosenShape(s, t, i), t.fields[i].pgType, Chosen(s, t, v, i);
    var slot := EncodeSlot(shape, pgType, c).value;
    if c.Some? {
      EncodingIsLaidOut(shape, pgType, c.value);
    }
    part := BEU32(Oid(pgType)) + slot;
    SlotOfField(s, t, v, i, slot, part);
  }

  lemma FieldsInFront(s: Shape, t: PgType, values: seq<Option<Value>>, i: nat, part: seq<byte>, more: seq<seq<byte>>)
    requires t.PgComposite? && s.Struct? && i + 1 + |more| <= |t.fields| && IsField(s, t, values, i, part)
    requires forall j :: 0 <= j < |more| ==> IsField(s, t, values, i + 1 + j, more[j])
    ensures forall j :: 0 <= j < |more| + 1 ==> IsField(s, t, values, i + j, ([part] + more)[j])
    ensures Joined([part] + more) == part + Joined(more)
  {
    var parts := [part] + more;
    assert parts[1..] == more;
    forall j | 0 <= j < |more| + 1 ensures IsField(s, t, values, i + j, parts[j]) {
      if j > 0 {
        assert parts[j] == more[j - 1];
        assert IsField(s, t, values, i + 1 + (j - 1), more[j - 1]);
      }
    }
  }

  // the layout leaves nothing open

  lemma FieldOfSlot(s: Shape, t: PgType, v: Value, i: nat, part: seq<byte>)
    requires t.PgComposite? && s.Struct? && v.Fields? && i < |t.fields| && IsField(s, t, v.values, i, part)
    requires Chosen(s, t, v, i).Some? ==>
               Encode(ChosenShape(s, t, i), t.fields[i].pgType, Chosen(s, t, v, i).value) == Some(part[8..])
    ensures EncodeSlot(ChosenShape(s, t, i), t.fields[i].pgType, Chosen(s, t, v, i)) == Some(part[4..])
    ensures part == BEU32(Oid(t.fields[i].pgType)) + part[4..]
  {
    LengthBytes(0);
    assert part == part[..4] + part[4..];
    if Chosen(s, t, v, i).Some? {
      LengthBytes(|part| - 8);
      assert part[4..] == part[4..8] + part[8..];
    }
  }

  lemma {:induction false} LaidOutIsEncoding(s: Shape, t: PgType, v: Value, bytes: seq<byte>)
    requires IsLaidOut(s, t, v, bytes)
    ensures Encode(s, t, v) == Some(bytes)
    decreases t, 1, 0
  {
    if v.Fields? {
      var parts: seq<seq<byte>> :|
        && |parts| == |t.fields| && bytes == BEU32(|t.fields|) + Joined(parts)
        && forall i :: 0 <= i < |parts| ==> IsField(s, t, v.values, i, parts[i]);
      LaidOutFields(s, t, v, 0, parts);
      LengthBytes(|t.fields|);
    }
  }

  lemma EncodedCons(s: Shape, t: PgType, v: Value, i: nat, part: seq<byte>, more: seq<seq<byte>>)
    requires t.PgComposite? && s.Struct? && v.Fields? && i < |t.fields| && |part| >= 4
    requires EncodeSlot(ChosenShape(s, t, i), t.fields[i].pgType, Chosen(s, t, v, i)) == Some(part[4..])
    requires part == BEU32(Oid(t.fields[i].pgType)) + part[4..] && EncodeFields(s, t, v, i + 1) == Some(Joined(more))
    ensures EncodeFields(s, t, v, i) == Some(Joined([part] + more))
  {
    assert ([part] + more)[1..] == more;
  }

  ghost predicate AreFields(s: Shape, t: PgType, values: seq<Option<Value>>, i: nat, parts: seq<seq<byte>>)
    requires t.PgComposite? && s.Struct? && i + |parts| <= |t.fields|
  {
    forall j :: 0 <= j < |parts| ==> IsField(s, t, values, i + j, parts[j])
  }

  lemma FieldsBehind(s: Shape, t: PgType, values: seq<Option<Value>>, i: nat, part: seq<byte>, more: seq<seq<byte>>)
    requires t.PgComposite? && s.Struct? && i + 1 + |more| <= |t.fields|
    requires AreFields(s, t, values, i, [part] + more)
    ensures IsField(s, t, values, i, part) && AreFields(s, t, values, i + 1, more)
  {
    assert IsField(s, t, values, i + 0, ([part] + more)[0]);
    forall j | 0 <= j < |more| ensures IsField(s, t, values, i + 1 + j, more[j]) {
      assert IsField(s, t, values, i + (j + 1), ([part] + more)[j + 1]);
    }
  }

  lemma {:induction false} LaidOutFields(s: Shape, t: PgType, v: Value, i: nat, parts: seq<seq<byte>>)
    requires t.PgComposite? && s.Struct? && v.Fields? && i <= |t.fields| && |parts| == |t.fields| - i
    requires AreFields(s, t, v.values, i, parts)
    ensures EncodeFields(s, t, v, i) == Some(Joined(parts))
    decreases t, 0, |t.fields| - i
  {
    if parts != [] {
      var part, more := parts[0], parts[1..];
      assert parts == [part] + more;
      FieldsBehind(s, t, v.values, i, part, more);
      LaidOutFields(s, t, v, i + 1, more);
      LaidOutField(s, t, v, i, part);
      EncodedCons(s, t, v, i, part, more);
    }
  }

  lemma {:induction false} LaidOutField(s: Shape, t: PgType, v: Value, i: nat, part: seq<byte>)
    requires t.PgComposite? && s.Struct? && v.Fields? && i < |t.fields| && IsField(s, t, v.values, i, part)
    ensures EncodeSlot(ChosenShape(s, t, i), t.fields[i].pgType, Chosen(s, t, v, i)) == Some(part[4..])
    ensures part == BEU32(Oid(t.fields[i].pgType)) + part[4..]
    decreases t, 0, 0
  {
    if Chosen(s, t, v, i).Some? {
      LaidOutIsEncoding(ChosenShape(s, t, i), t.fields[i].pgType, Chosen(s, t, v, i).value, part[8..]);
    }
    FieldOfSlot(s, t, v, i, part);
  }

  /** A value is encoded as these bytes if and only if they are laid out as the server reads them. */
  lemma LayoutExactly(s: Shape, t: PgType, v: Value, bytes: seq<byte>)
    ensures Encode(s, t, v) == Some(bytes) <==> IsLaidOut(s, t, v, bytes)
  {
    if Encode(s, t, v) == Some(bytes) {
      EncodingIsLaidOut(s, t, v);
    }
    if IsLaidOut(s, t, v, bytes) {
      LaidOutIsEncoding(s, t, v, bytes);
    }
  }

  // ---------------------------------------------------------------------------
  // Round trip
  // ---------------------------------------------------------------------------

  lemma SlotReadBack(s: Shape, t: PgType, v: Option<Value>, tail: seq<byte>)
    requires EncodeSlot(s, t, v).Some?
    ensures ReadChunk(EncodeSlot(s, t, v).value + tail) == Ok(Read(if v.None? then None else Encode(s, t, v.value), tail))
  {
    var slot := EncodeSlot(s, t, v).value;
    if v.None? {
      RoundTrip32(-1);
      assert (slot + tail)[..4] == slot && (slot + tail)[4..] == tail;
    } else {
      var bytes := Encode(s, t, v.value).value;
      RoundTrip32(|bytes|);
      assert (slot + tail)[..4] == BE32(|bytes|) && (slot + tail)[4..] == bytes + tail;
    }
  }

  lemma OidReadBack(oid: u32, tail: seq<byte>)
    ensures ReadU32(BEU32(oid) + tail) == Ok(Read(oid, tail))
  {
    RoundTripU32(oid);
    assert (BEU32(oid) + tail)[..4] == BEU32(oid) && (BEU32(oid) + tail)[4..] == tail;
  }

  /** The struct fields that the server's first `i` fields are matched with hold their values. */
  ghost predicate Filled(s: Shape, t: PgType, v: Value, i: nat, temps: Temps)
    requires t.PgComposite? && s.Struct? && v.Fields? && i <= |t.fields|
  {
    && |temps| == |s.fields| == |v.values|
    && forall j :: 0 <= j < i ==>
         var k := Find(s.fields, t.fields[j].name);
         k < |temps| && temps[k] == Some(v.values[k])
  }

  lemma FilledMore(s: Shape, t: PgType, v: Value, i: nat, temps: Temps)
    requires t.PgComposite? && s.Struct? && v.Fields? && i < |t.fields| && Filled(s, t, v, i, temps)
    requires Find(s.fields, t.fields[i].name) < |s.fields|
    ensures var k := Find(s.fields, t.fields[i].name);
            Filled(s, t, v, i + 1, temps[k := Some(Chosen(s, t, v, i))])
  {}

  /** With every server field read, every struct field has its value. */
  lemma FilledIsAll(s: Shape, t: PgType, v: Value, temps: Temps)
    requires Accepts(s, t) && Declared(t) && Fits(s, v) && t.PgComposite? && Filled(s, t, v, |t.fields|, temps)
    ensures Unwrap(temps) == Ok(v)
  {
    forall k | 0 <= k < |temps| ensures temps[k] == Some(v.values[k]) {
      var i := EveryFieldIsMatched(s.fields, t.fields, k);
    }
    assert seq(|temps|, k requires 0 <= k < |temps| => temps[k].value) == v.values;
  }

  /**
   Whatever the nesting, the NULLs and the order of the fields on either side, decoding the
   encoding of a value gives the value back.
   */
  lemma {:induction false} RoundTrip(s: Shape, t: PgType, v: Value)
    requires Accepts(s, t) && Declared(t) && Fits(s, v) && Encode(s, t, v).Some?
    ensures Decode(s, t, Encode(s, t, v).value) == Ok(v)
    decreases t, 1, 0
  {
    if t.PgComposite? {
      var bytes := EncodeFields(s, t, v, 0).value;
      var all := BE32(|t.fields|) + bytes;
      RoundTrip32(|t.fields|);
      assert all[..4] == BE32(|t.fields|) && all[4..] == bytes + [];
      var temps := FieldsRoundTrip(s, t, v, 0, [], NoTemps(|s.fields|));
      FilledIsAll(s, t, v, temps);
    }
  }

  lemma {:induction false} FieldsRoundTrip(s: Shape, t: PgType, v: Value, i: nat, tail: seq<byte>, temps: Temps) returns (r: Temps)
    requires Accepts(s, t) && Declared(t) && Fits(s, v) && t.PgComposite? && i <= |t.fields|
    requires EncodeFields(s, t, v, i).Some? && Filled(s, t, v, i, temps)
    ensures DecodeFields(s, t, i, EncodeFields(s, t, v, i).value + tail, temps) == Ok(r)
    ensures Filled(s, t, v, |t.fields|, r)
    decreases t, 0, |t.fields| - i
  {
    if i == |t.fields| {
      r := temps;
    } else {
      var shape, pgType, c := ChosenShape(s, t, i), t.fields[i].pgType, Chosen(s, t, v, i);
      var k := Find(s.fields, t.fields[i].name);
      var slot, rest := EncodeSlot(shape, pgType, c).value, EncodeFields(s, t, v, i + 1).value;
      ChosenFits(s, t, v, i);
      FilledMore(s, t, v, i, temps);
      r := FieldsRoundTrip(s, t, v, i + 1, tail, temps[k := Some(c)]);
      if c.Some? {
        RoundTrip(shape, pgType, c.value);
      }
      AppendAssoc(BEU32(Oid(pgType)), slot, rest);
      AppendAssoc(BEU32(Oid(pgType)), slot + rest, tail);
      AppendAssoc(slot, rest, tail);
      OidReadBack(Oid(pgType), slot + (rest + tail));
      SlotReadBack(shape, pgType, c, rest + tail);
    }
  }

  // ---------------------------------------------------------------------------
  // Any bytes
  // ---------------------------------------------------------------------------

  /** The struct fields matched with the server's first `i` fields have been read. */
  ghost predicate Seen(s: Shape, t: PgType, i: nat, temps: Temps)
    requires t.PgComposite? && s.Struct? && i <= |t.fields|
  {
    && |temps| == |s.fields|
    && forall j :: 0 <= j < i ==>
         var k := Find(s.fields, t.fields[j].name);
         k < |temps| && temps[k].Some?
  }

  lemma SeenIsAll(s: Shape, t: PgType, temps: Temps)
    requires Accepts(s, t) && Declared(t) && t.PgComposite? && Seen(s, t, |t.fields|, temps)
    ensures Unwrap(temps).Ok?
  {
    forall k | 0 <= k < |temps| ensures temps[k].Some? {
      var i := EveryFieldIsMatched(s.fields, t.fields, k);
    }
  }

  /** For any bytes at all, no field of the struct is found missing when it is put together. */
  lemma {:induction false} NoFieldIsMissing(s: Shape, t: PgType, buf: seq<byte>)
    requires Accepts(s, t) && Declared(t)
    ensures Decode(s, t, buf) != Err(MissingField)
    decreases t, 1, 0
  {
    if t.PgComposite? && |buf| >= 4 {
      NoneIsMissing(s, t, 0, buf[4..], NoTemps(|s.fields|));
      var r := DecodeFields(s, t, 0, buf[4..], NoTemps(|s.fields|));
      if r.Ok? {
        SeenIsAll(s, t, r.value);
      }
    }
  }

  lemma {:induction false} NoneIsMissing(s: Shape, t: PgType, i: nat, buf: seq<byte>, temps: Temps)
    requires Accepts(s, t) && Declared(t) && t.PgComposite? && i <= |t.fields| && Seen(s, t, i, temps)
    ensures DecodeFields(s, t, i, buf, temps) != Err(MissingField)
    ensures var r := DecodeFields(s, t, i, buf, temps); r.Ok? ==> Seen(s, t, |t.fields|, r.value)
    decreases t, 0, |t.fields| - i
  {
    if i < |t.fields| && |buf| >= 4 && ReadChunk(buf[4..]).Ok? {
      var k, chunk := Find(s.fields, t.fields[i].name), ReadChunk(buf[4..]).value;
      assert k < |s.fields|;
      if chunk.value.Some? {
        NoFieldIsMissing(s.fields[k].shape, t.fields[i].pgType, chunk.value.value);
      }
      var v := DecodeNullable(s.fields[k], t.fields[i].pgType, chunk.value);
      if v.Ok? {
        assert Seen(s, t, i + 1, temps[k := Some(v.value)]);
        NoneIsMissing(s, t, i + 1, chunk.rest, temps[k := Some(v.value)]);
      }
    }
  }

  // ---------------------------------------------------------------------------
  // What is accepted
  // ---------------------------------------------------------------------------

  /** A count, the parts, and bytes behind them that are ignored. */
  predicate Consists(buf: seq<byte>, n: u32, parts: seq<seq<byte>>, rest: seq<byte>) {
    |parts| == n && buf == BEU32(n) + (Joined(parts) + rest)
  }

  /** The field in front of which its type's OID and its length stand; any negative length is NULL. */
  ghost predicate IsReadField(f: ShapeField, t: PgType, v: Option<Value>, part: seq<byte>)
    decreases t, 3
  {
    && |part| >= 8 && part[..4] == BEU32(t.oid)
    && var n := FromBE32(part[4..8]);
       if n < 0 then |part| == 8 && v.None? && f.nullable
       else |part| == 8 + n && v.Some? && IsReadable(f.shape, t, v.value, part[8..])
  }

  /** The bytes hold a value of the struct, the server's fields in the server's order. */
  ghost predicate IsReadable(s: Shape, t: PgType, v: Value, buf: seq<byte>)
    decreases t, 2
  {
    match t
    case PgScalar(_) => v == Leaf(buf)
    case PgComposite(_, _, fields) =>
      && s.Struct? && v.Fields? && |v.values| == |s.fields| && |fields| <= I32_MAX
      && exists parts, rest :: Consists(buf, |fields|, parts, rest) && AreReadFields(s, t, v.values, 0, parts)
  }

  /** The part holds the struct's field that the server's `i`-th field is matched with. */
  ghost predicate IsFieldAt(s: Shape, t: PgType, values: seq<Option<Value>>, i: nat, part: seq<byte>)
    requires t.PgComposite? && s.Struct?
    decreases t, 0
  {
    i < |t.fields| &&
    var k := Find(s.fields, t.fields[i].name);
    k < |s.fields| && k < |values| && IsReadField(s.fields[k], t.fields[i].pgType, values[k], part)
  }

  ghost predicate AreReadFields(s: Shape, t: PgType, values: seq<Option<Value>>, i: nat, parts: seq<seq<byte>>)
    requires t.PgComposite? && s.Struct?
    decreases t, 1
  {
    forall j :: 0 <= j < |parts| ==> IsFieldAt(s, t, values, i + j, parts[j])
  }

  lemma FieldsCons(s: Shape, t: PgType, values: seq<Option<Value>>, i: nat, part: seq<byte>, more: seq<seq<byte>>)
    requires t.PgComposite? && s.Struct?
    ensures AreReadFields(s, t, values, i, [part] + more) <==>
            IsFieldAt(s, t, values, i, part) && AreReadFields(s, t, values, i + 1, more)
  {
    var parts := [part] + more;
    if AreReadFields(s, t, values, i, parts) {
      assert IsFieldAt(s, t, values, i + 0, parts[0]);
      forall j | 0 <= j < |more| ensures IsFieldAt(s, t, values, i + 1 + j, more[j]) {
        assert IsFieldAt(s, t, values, i + (j + 1), parts[j + 1]);
      }
    }
    if IsFieldAt(s, t, values, i, part) && AreReadFields(s, t, values, i + 1, more) {
      forall j | 0 <= j < |parts| ensures IsFieldAt(s, t, values, i + j, parts[j]) {
        if j > 0 {
          assert IsFieldAt(s, t, values, i + 1 + (j - 1), more[j - 1]);
        }
      }
    }
  }

  lemma FoundOnce(s: Shape, t: PgType, i: nat, j: nat)
    requires Accepts(s, t) && Declared(t) && t.PgComposite? && i < j < |t.fields|
    ensures Find(s.fields, t.fields[i].name) < |s.fields|
    ensures Find(s.fields, t.fields[i].name) != Find(s.fields, t.fields[j].name)
  {}

  /** The first field of the bytes, as a part. */
  lemma FirstPart(buf: seq<byte>, oid: u32, chunk: Option<seq<byte>>, rest: seq<byte>) returns (part: seq<byte>)
    requires |buf| >= 4 && FromBE32U(buf[..4]) == oid && ReadChunk(buf[4..]) == Ok(Read(chunk, rest))
    ensures buf == part + rest && |part| >= 8 && part[..4] == BEU32(oid)
    ensures var n := FromBE32(part[4..8]);
            if n < 0 then |part| == 8 && chunk.None? else |part| == 8 + n && chunk == Some(part[8..])
  {
    part := buf[..|buf| - |rest|];
    var n := FromBE32(buf[4..][..4]);
    assert buf[4..][..4] == buf[4..8] == part[4..8];
    assert buf[4..][4..] == buf[8..];
    RoundTripU32(oid);
    UnsignedBack(buf[..4]);
    assert part[..4] == buf[..4];
    if n >= 0 {
      assert buf[8..][..n] == part[8..];
    }
    assert buf == part + rest;
  }

  lemma UnsignedBack(s: seq<byte>)
    requires |s| == 4
    ensures BEU32(FromBE32U(s)) == s
  {
    Digits256(s[0], s[1], s[2], s[3]);
  }

  lemma {:induction false} DecodedIsReadable(s: Shape, t: PgType, buf: seq<byte>)
    requires Accepts(s, t) && Declared(t) && Decode(s, t, buf).Ok?
    ensures IsReadable(s, t, Decode(s, t, buf).value, buf)
    decreases t, 1, 0
  {
    if t.PgComposite? {
      var final := DecodeFields(s, t, 0, buf[4..], NoTemps(|s.fields|)).value;
      NoneIsMissing(s, t, 0, buf[4..], NoTemps(|s.fields|));
      var values := Decode(s, t, buf).value.values;
      var parts, rest := DecodedFields(s, t, 0, buf[4..], NoTemps(|s.fields|), final, values);
      UnsignedBack(buf[..4]);
      assert FromBE32U(buf[..4]) == |t.fields|;
      assert buf == buf[..4] + buf[4..];
      assert Consists(buf, |t.fields|, parts, rest);
    }
  }

  /** A field that is read later is another one. */
  lemma {:induction false} LaterFieldsKeep(s: Shape, t: PgType, i: nat, buf: seq<byte>, temps: Temps, final: Temps, k: nat)
    requires t.PgComposite? && s.Struct? && i <= |t.fields| && k < |temps|
    requires forall j :: i <= j < |t.fields| ==> Find(s.fields, t.fields[j].name) != k
    requires DecodeFields(s, t, i, buf, temps) == Ok(final)
    ensures |final| == |temps| && final[k] == temps[k]
    decreases |t.fields| - i
  {
    if i < |t.fields| {
      var k' := Find(s.fields, t.fields[i].name);
      var chunk := ReadChunk(buf[4..]).value;
      var v := DecodeNullable(s.fields[k'], t.fields[i].pgType, chunk.value).value;
      LaterFieldsKeep(s, t, i + 1, chunk.rest, temps[k' := Some(v)], final, k);
    }
  }

  lemma FieldStays(s: Shape, t: PgType, i: nat, buf: seq<byte>, temps: Temps, final: Temps, k: nat, v: Option<Value>)
    requires Accepts(s, t) && Declared(t) && t.PgComposite? && i < |t.fields| && k == Find(s.fields, t.fields[i].name)
    requires k < |temps| && DecodeFields(s, t, i + 1, buf, temps[k := Some(v)]) == Ok(final)
    ensures |final| == |temps| && final[k] == Some(v)
  {
    forall j | i + 1 <= j < |t.fields| ensures Find(s.fields, t.fields[j].name) != k {
      FoundOnce(s, t, i, j);
    }
    LaterFieldsKeep(s, t, i + 1, buf, temps[k := Some(v)], final, k);
  }

  ghost predicate AllSet(temps: Temps, values: seq<Option<Value>>) {
    |values| == |temps| && forall k :: 0 <= k < |temps| ==> temps[k] == Some(values[k])
  }

  lemma {:induction false} DecodedFields(s: Shape, t: PgType, i: nat, buf: seq<byte>, temps: Temps, final: Temps, values: seq<Option<Value>>)
    returns (parts: seq<seq<byte>>, rest: seq<byte>)
    requires Accepts(s, t) && Declared(t) && t.PgComposite? && i <= |t.fields| && |temps| == |s.fields|
    requires DecodeFields(s, t, i, buf, temps) == Ok(final) && AllSet(final, values)
    ensures |parts| == |t.fields| - i && buf == Joined(parts) + rest
    ensures AreReadFields(s, t, values, i, parts)
    decreases t, 0, |t.fields| - i
  {
    if i == |t.fields| {
      parts, rest := [], buf;
    } else {
      var pgType, k := t.fields[i].pgType, Find(s.fields, t.fields[i].name);
      var chunk := ReadChunk(buf[4..]).value;
      var v := DecodeNullable(s.fields[k], pgType, chunk.value).value;
      if chunk.value.Some? {
        DecodedIsReadable(s.fields[k].shape, pgType, chunk.value.value);
      }
      FieldStays(s, t, i, chunk.rest, temps, final, k, v);
      var part := FirstPart(buf, Oid(pgType), chunk.value, chunk.rest);
      assert IsFieldAt(s, t, values, i, part);
      var more;
      more, rest := DecodedFields(s, t, i + 1, chunk.rest, temps[k := Some(v)], final, values);
      parts := [part] + more;
      assert parts[1..] == more;
      AppendAssoc(part, Joined(more), rest);
      FieldsCons(s, t, values, i, part, more);
    }
  }

  lemma {:induction false} ReadableIsDecoded(s: Shape, t: PgType, v: Value, buf: seq<byte>)
    requires Accepts(s, t) && Declared(t) && IsReadable(s, t, v, buf)
    ensures Decode(s, t, buf) == Ok(v)
    decreases t, 1, 0
  {
    if t.PgComposite? {
      var parts, rest :| Consists(buf, |t.fields|, parts, rest) && AreReadFields(s, t, v.values, 0, parts);
      var behind := Joined(parts) + rest;
      assert buf[..4] == BEU32(|t.fields|) && buf[4..] == behind;
      LengthBytes(|t.fields|);
      RoundTrip32(|t.fields|);
      var r := ReadableFields(s, t, v, 0, parts, rest, NoTemps(|s.fields|));
      AllFilled(s, t, v, r);
    }
  }

  lemma AllFilled(s: Shape, t: PgType, v: Value, temps: Temps)
    requires Accepts(s, t) && Declared(t) && t.PgComposite? && v.Fields? && |v.values| == |s.fields|
    requires Filled(s, t, v, |t.fields|, temps)
    ensures Unwrap(temps) == Ok(v)
  {
    forall k | 0 <= k < |temps| ensures temps[k] == Some(v.values[k]) {
      var i := EveryFieldIsMatched(s.fields, t.fields, k);
    }
    assert seq(|temps|, k requires 0 <= k < |temps| => temps[k].value) == v.values;
  }

  /** A part in front of the rest is read as its field. */
  lemma PartIsRead(f: ShapeField, t: PgType, v: Option<Value>, part: seq<byte>, rest: seq<byte>) returns (chunk: Option<seq<byte>>)
    requires IsReadField(f, t, v, part)
    ensures ReadU32(part + rest) == Ok(Read(t.oid, (part + rest)[4..]))
    ensures ReadChunk((part + rest)[4..]) == Ok(Read(chunk, rest))
    ensures chunk.Some? <==> v.Some?
    ensures chunk.Some? ==> chunk.value == part[8..]
  {
    var buf := part + rest;
    RoundTripU32(t.oid);
    assert buf[..4] == part[..4];
    assert buf[4..][..4] == part[4..8] && buf[4..][4..] == part[8..] + rest;
    var n := FromBE32(part[4..8]);
    if n < 0 {
      chunk := None;
      assert part[8..] == [];
    } else {
      chunk := Some(part[8..]);
      assert (part[8..] + rest)[..n] == part[8..] && (part[8..] + rest)[n..] == rest;
    }
  }

  lemma {:induction false} ReadableFields(s: Shape, t: PgType, v: Value, i: nat, parts: seq<seq<byte>>, rest: seq<byte>, temps: Temps)
    returns (r: Temps)
    requires Accepts(s, t) && Declared(t) && t.PgComposite? && v.Fields? && i <= |t.fields| && |parts| == |t.fields| - i
    requires AreReadFields(s, t, v.values, i, parts) && Filled(s, t, v, i, temps)
    ensures DecodeFields(s, t, i, Joined(parts) + rest, temps) == Ok(r) && Filled(s, t, v, |t.fields|, r)
    decreases t, 0, |t.fields| - i
  {
    if i == |t.fields| {
      r := temps;
    } else {
      var pgType, k := t.fields[i].pgType, Find(s.fields, t.fields[i].name);
      var part, more := parts[0], parts[1..];
      assert parts == [part] + more;
      FieldsCons(s, t, v.values, i, part, more);
      AppendAssoc(part, Joined(more), rest);
      var chunk := ReadableField(s.fields[k], pgType, v.values[k], part, Joined(more) + rest, s, t, i);
      FilledMore(s, t, v, i, temps);
      r := ReadableFields(s, t, v, i + 1, more, rest, temps[k := Some(v.values[k])]);
    }
  }

  /** One field: its OID, its chunk, and its value. */
  lemma {:induction false} ReadableField(f: ShapeField, pgType: PgType, v: Option<Value>, part: seq<byte>, behind: seq<byte>,
                                         s: Shape, t: PgType, i: nat) returns (chunk: Option<seq<byte>>)
    requires Accepts(s, t) && Declared(t) && t.PgComposite? && i < |t.fields| && pgType == t.fields[i].pgType
    requires Find(s.fields, t.fields[i].name) < |s.fields| && f == s.fields[Find(s.fields, t.fields[i].name)]
    requires IsReadField(f, pgType, v, part)
    ensures ReadU32(part + behind) == Ok(Read(pgType.oid, (part + behind)[4..]))
    ensures ReadChunk((part + behind)[4..]) == Ok(Read(chunk, behind))
    ensures DecodeNullable(f, pgType, chunk) == Ok(v)
    decreases t, 0, 0
  {
    chunk := PartIsRead(f, pgType, v, part, behind);
    if chunk.Some? {
      ReadableIsDecoded(f.shape, pgType, v.value, chunk.value);
    }
  }

  /**
   For any bytes at all: decoding gives a value if and only if the bytes hold that value, field
   by field with the right OIDs and lengths; bytes behind the last field are ignored.
   */
  lemma DecodesExactly(s: Shape, t: PgType, buf: seq<byte>, v: Value)
    requires Accepts(s, t) && Declared(t)
    ensures Decode(s, t, buf) == Ok(v) <==> IsReadable(s, t, v, buf)
  {
    if Decode(s, t, buf) == Ok(v) {
      DecodedIsReadable(s, t, buf);
    }
    if IsReadable(s, t, v, buf) {
      ReadableIsDecoded(s, t, v, buf);
    }
  }

  // ---------------------------------------------------------------------------
  // The generated code
  // ---------------------------------------------------------------------------

  /** `bytes` in front of what is still to be encoded. */
  function Prefixed(bytes: seq<byte>, rest: Option<seq<byte>>): Option<seq<byte>> {
    if rest.None? then None else Some(bytes + rest.value)
  }

  lemma PrefixedStep(bytes: seq<byte>, oid: seq<byte>, slot: seq<byte>, rest: Option<seq<byte>>)
    ensures Prefixed(bytes, if rest.None? then None else Some(oid + slot + rest.value)) ==
            Prefixed(bytes + oid + slot, rest)
  {
    if rest.Some? {
      assert bytes + (oid + slot + rest.value) == bytes + oid + slot + rest.value;
    }
  }

  /**
   Appends the value. Whatever happens, the bytes that were in the buffer stay, although
   length slots are patched in place.
   */
  method ToSql(s: Shape, t: PgType, v: Value, buf: BytesMut) returns (r: Option<IsNull>)
    requires Accepts(s, t) && Declared(t) && Fits(s, v)
    modifies buf
    ensures r == if Encode(s, t, v).Some? then Some(No) else None
    ensures r.Some? ==> buf.bytes == old(buf.bytes) + Encode(s, t, v).value
    ensures old(buf.bytes) <= buf.bytes
    decreases t, 1
  {
    match v
    case Leaf(bytes) =>
      buf.Extend(bytes);
      return Some(No);
    case Fields(values) =>
      ghost var before := buf.bytes;
      buf.Extend(BE32(|t.fields|));
      ghost var done: seq<byte> := [];
      AppendEmpty(before + BE32(|t.fields|));
      NothingDone(EncodeFields(s, t, v, 0));
      for i := 0 to |t.fields|
        invariant buf.bytes == before + BE32(|t.fields|) + done
        invariant Prefixed(done, EncodeFields(s, t, v, i)) == EncodeFields(s, t, v, 0)
      {
        ChosenFits(s, t, v, i);
        var field := t.fields[i];
        ghost var start := buf.bytes;
        buf.Extend(BEU32(Oid(field.pgType)));
        var ok := WriteSlot(ChosenShape(s, t, i), field.pgType, Chosen(s, t, v, i), buf);
        if !ok {
          return None;
        }
        ghost var slot := EncodeSlot(ChosenShape(s, t, i), field.pgType, Chosen(s, t, v, i)).value;
        PrefixedStep(done, BEU32(Oid(field.pgType)), slot, EncodeFields(s, t, v, i + 1));
        SlotAppended(before + BE32(|t.fields|), done, BEU32(Oid(field.pgType)), slot);
        done := done + BEU32(Oid(field.pgType)) + slot;
      }
      AppendAssoc(before, BE32(|t.fields|), done);
      AppendEmpty(done);
      return Some(No);
  }

  lemma NothingDone(rest: Option<seq<byte>>)
    ensures Prefixed([], rest) == rest
  {
    if rest.Some? {
      AppendEmpty(rest.value);
    }
  }

  lemma SlotAppended(start: seq<byte>, done: seq<byte>, oid: seq<byte>, slot: seq<byte>)
    ensures start + done + oid + slot == start + (done + oid + slot)
  {}

  /** Reserves the length, writes the value behind it and patches the length. */
  method WriteSlot(s: Shape, t: PgType, v: Option<Value>, buf: BytesMut) returns (ok: bool)
    requires v.Some? ==> Accepts(s, t) && Declared(t) && Fits(s, v.value)
    modifies buf
    ensures ok <==> EncodeSlot(s, t, v).Some?
    ensures ok ==> buf.bytes == old(buf.bytes) + EncodeSlot(s, t, v).value
    ensures old(buf.bytes) <= buf.bytes
    decreases t, 2
  {
    ghost var before := buf.bytes;
    var base := |buf.bytes|;
    buf.Extend(BE32(0));
    var count: int := -1;
    if v.Some? {
      var r := ToSql(s, t, v.value, buf);
      if r.None? {
        return false;
      }
      count := |buf.bytes| - base - 4;
      if count > I32_MAX {
        return false;
      }
    }
    buf.Patch32(base, count);
    PatchedSlot(before, BE32(0), BE32(count), if v.Some? then Encode(s, t, v.value).value else []);
    return true;
  }

  lemma PatchedSlot(before: seq<byte>, zeros: seq<byte>, length: seq<byte>, bytes: seq<byte>)
    requires |zeros| == |length| == 4
    ensures var all, base := before + zeros + bytes, |before|;
            all[..base] + length + all[base + 4..] == before + (length + bytes)
    ensures before + zeros == before + zeros + [] && length + [] == length
  {}

  /** A byte slice that reading advances. */
  class Slice {
    var buf: seq<byte>

    constructor (buf: seq<byte>)
      ensures this.buf == buf
    {
      this.buf := buf;
    }

    method ReadBeI32() returns (r: Result<i32, DecodeError>)
      modifies this
      ensures match ReadI32(old(buf))
              case Err(e) => r == Err(e) && buf == old(buf)
              case Ok(Read(x, rest)) => r == Ok(x) && buf == rest
    {
      if |buf| < 4 {
        return Err(InvalidBufferSize);
      }
      var val := buf[..4];
      buf := buf[4..];
      return Ok(FromBE32(val));
    }

    /** The next length-prefixed value's bytes. */
    method ReadValueBytes() returns (r: Result<Option<seq<byte>>, DecodeError>)
      modifies this
      ensures match ReadChunk(old(buf))
              case Err(e) => r == Err(e)
              case Ok(Read(chunk, rest)) => r == Ok(chunk) && buf == rest
    {
      var len := ReadBeI32();
      if len.Err? {
        return Err(len.error);
      }
      if len.value < 0 {
        return Ok(None);
      }
      if |buf| < len.value {
        return Err(InvalidBufferSize);
      }
      var head := buf[..len.value];
      buf := buf[len.value..];
      return Ok(Some(head));
    }
  }

  /** Reading as signed and casting to unsigned reads the unsigned number. */
  lemma CastOid(bytes: seq<byte>)
    requires |bytes| == 4
    ensures FromBE32(bytes) as int % 0x1_0000_0000 == FromBE32U(bytes)
  {}

  method FromSql(s: Shape, t: PgType, bytes: seq<byte>) returns (r: Result<Value, DecodeError>)
    requires Accepts(s, t) && Declared(t)
    ensures r == Decode(s, t, bytes)
    decreases t, 1
  {
    if t.PgScalar? {
      return Ok(Leaf(bytes));
    }
    var buf := new Slice(bytes);
    var count := buf.ReadBeI32();
    if count.Err? {
      return Err(count.error);
    }
    if count.value != |t.fields| {
      return Err(InvalidFieldCount);
    }
    var temps := NoTemps(|s.fields|);
    for i := 0 to |t.fields|
      invariant |temps| == |s.fields|
      invariant Decode(s, t, bytes) ==
                match DecodeFields(s, t, i, buf.buf, temps) case Err(e) => Err(e) case Ok(all) => Unwrap(all)
    {
      var field := t.fields[i];
      ghost var here := buf.buf;
      if |here| >= 4 {
        CastOid(here[..4]);
      }
      var oid := buf.ReadBeI32();
      if oid.Err? {
        return Err(oid.error);
      }
      if oid.value as int % 0x1_0000_0000 != Oid(field.pgType) {
        return Err(UnexpectedOid);
      }
      var chunk := buf.ReadValueBytes();
      if chunk.Err? {
        return Err(chunk.error);
      }
      var k := Find(s.fields, field.name);
      var v := FromSqlNullable(s.fields[k], field.pgType, chunk.value);
      if v.Err? {
        return Err(v.error);
      }
      temps := temps[k := Some(v.value)];
    }
    return Unwrap(temps);
  }

  method FromSqlNullable(f: ShapeField, t: PgType, chunk: Option<seq<byte>>) returns (r: Result<Option<Value>, DecodeError>)
    requires Accepts(f.shape, t) && Declared(t)
    ensures r == DecodeNullable(f, t, chunk)
    decreases t, 2
  {
    if chunk.None? {
      return if f.nullable then Ok(None) else Err(WasNull);
    }
    var v := FromSql(f.shape, t, chunk.value);
    return if v.Err? then Err(v.error) else Ok(Some(v.value));
  }
}
