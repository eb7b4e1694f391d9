/**
 Looking up types: a recursive walk over the server's catalog, memoized in a cache that
 all tasks of a client share. The queries it needs are prepared by the same code.
 */
module TypeCache {
  import opened Wrappers
  import opened Sequences

  type Oid = nat

  datatype PgType =
    | Builtin(oid: Oid)
    | PgType(name: string, oid: Oid, kind: Kind, schema: string)

  datatype Kind =
    | Simple | Pseudo
    | Enum(variants: seq<string>)
    | Domain(inner: PgType) | Array(element: PgType) | Range(subtype: PgType)
    | Composite(fields: seq<Field>)

  datatype Field = Field(name: string, fieldType: PgType)

  // ---------------------------------------------------------------------------
  // The catalog
  // ---------------------------------------------------------------------------

  /** A row of pg_type; 0 stands for no type. */
  datatype Row = Row(
    name: string, typtype: char, element: Oid, subtype: Option<Oid>, base: Oid, schema: string, relation: Oid)

  datatype Attribute = Attribute(name: string, oid: Oid)

  /**
   `labels` are in sort order and `oldLabels` in order of their OIDs. An old server has no
   table of ranges, or no sort order for labels.
   */
  datatype Catalog = Catalog(
    builtins: set<Oid>, rows: map<Oid, Row>,
    labels: map<Oid, seq<string>>, oldLabels: map<Oid, seq<string>>,
    attributes: map<Oid, seq<Attribute>>,
    hasRanges: bool, hasSortOrder: bool)

  const CHAR: Oid := 18
  const NAME: Oid := 19
  const OID: Oid := 26

  datatype Error = UnexpectedMessage | UndefinedTable | UndefinedColumn | OtherDatabaseError | ConnectionLost

  function LabelsOf(c: Catalog, oid: Oid): seq<string> {
    var m := if c.hasSortOrder then c.labels else c.oldLabels;
    if oid in m then m[oid] else []
  }

  function AttributesOf(c: Catalog, relation: Oid): seq<Attribute> {
    if relation in c.attributes then c.attributes[relation] else []
  }

  function SubtypeOf(c: Catalog, row: Row): Option<Oid> {
    if c.hasRanges then row.subtype else None
  }

  function OidsOf(attributes: seq<Attribute>): (oids: seq<Oid>)
    ensures |oids| == |attributes| && forall i :: 0 <= i < |oids| ==> oids[i] == attributes[i].oid
  {
    seq(|attributes|, i requires 0 <= i < |attributes| => attributes[i].oid)
  }

  /** The types that a type is made of. */
  function Needs(c: Catalog, row: Row): seq<Oid> {
    if row.typtype == 'e' || row.typtype == 'p' then []
    else if row.base != 0 then [row.base]
    else if row.element != 0 then [row.element]
    else if row.relation != 0 then OidsOf(AttributesOf(c, row.relation))
    else if SubtypeOf(c, row).Some? then [SubtypeOf(c, row).value]
    else []
  }

  function Level(c: Catalog, rank: Oid -> nat, oid: Oid): nat {
    if oid in c.builtins then 0 else rank(oid) + 1
  }

  /** `rank` shows that no type is made of itself. */
  ghost predicate Acyclic(c: Catalog, rank: Oid -> nat) {
    forall oid, i :: oid in c.rows && oid !in c.builtins && 0 <= i < |Needs(c, c.rows[oid])| ==>
      Level(c, rank, Needs(c, c.rows[oid])[i]) < Level(c, rank, oid)
  }

  // ---------------------------------------------------------------------------
  // Resolution without a cache
  // ---------------------------------------------------------------------------

  /** The type that `oid` denotes. */
  function Resolve(c: Catalog, ghost rank: Oid -> nat, oid: Oid): Result<PgType, Error>
    requires Acyclic(c, rank)
    decreases Level(c, rank, oid), 1, 0
  {
    if oid in c.builtins then Ok(Builtin(oid))
    else if oid !in c.rows then Err(UnexpectedMessage)
    else
      var row := c.rows[oid];
      var needs := Needs(c, row);
      assert forall i :: 0 <= i < |needs| ==> Level(c, rank, needs[i]) < Level(c, rank, oid);
      match ResolveAll(c, rank, needs, Level(c, rank, oid))
      case Err(e) => Err(e)
      case Ok(parts) => Ok(PgType(row.name, oid, KindOf(c, oid, row, parts), row.schema))
  }

  function ResolveAll(c: Catalog, ghost rank: Oid -> nat, oids: seq<Oid>, ghost bound: nat): (r: Result<seq<PgType>, Error>)
    requires Acyclic(c, rank)
    requires forall i :: 0 <= i < |oids| ==> Level(c, rank, oids[i]) < bound
    ensures r.Ok? ==> |r.value| == |oids|
    decreases bound, 0, |oids|
  {
    if oids == [] then Ok([])
    else match Resolve(c, rank, oids[0])
      case Err(e) => Err(e)
      case Ok(t) =>
        match ResolveAll(c, rank, oids[1..], bound)
        case Err(e) => Err(e)
        case Ok(ts) => Ok([t] + ts)
  }

  /** `parts` are the types `oid` is made of. */
  function KindOf(c: Catalog, oid: Oid, row: Row, parts: seq<PgType>): Kind
    requires |parts| == |Needs(c, row)|
  {
    if row.typtype == 'e' then Enum(LabelsOf(c, oid))
    else if row.typtype == 'p' then Pseudo
    else if row.base != 0 then Domain(parts[0])
    else if row.element != 0 then Array(parts[0])
    else if row.relation != 0 then Composite(FieldsOf(AttributesOf(c, row.relation), parts))
    else if SubtypeOf(c, row).Some? then Range(parts[0])
    else Simple
  }

  function FieldsOf(attributes: seq<Attribute>, parts: seq<PgType>): (fields: seq<Field>)
    requires |attributes| == |parts|
    ensures |fields| == |parts|
    ensures forall i :: 0 <= i < |fields| ==> fields[i] == Field(attributes[i].name, parts[i])
  {
    seq(|parts|, i requires 0 <= i < |parts| => Field(attributes[i].name, parts[i]))
  }

  // ---------------------------------------------------------------------------
  // What type an OID denotes
  // ---------------------------------------------------------------------------

  /** An enum's labels, in the order this server can give. */
  predicate IsLabelsOf(c: Catalog, oid: Oid, variants: seq<string>) {
    if c.hasSortOrder then variants == (if oid in c.labels then c.labels[oid] else [])
    else variants == (if oid in c.oldLabels then c.oldLabels[oid] else [])
  }

  /** A row that the kinds enum and pseudo do not take. */
  predicate IsStructured(row: Row) { row.typtype != 'e' && row.typtype != 'p' }

  /**
   The type is the one that the catalog gives for the OID: an enum with its labels, a domain
   over the row's base, an array of its element, a composite of its relation's attributes, a
   range over its subtype, in this order of preference.
   */
  ghost predicate Denotes(c: Catalog, oid: Oid, t: PgType)
    decreases t
  {
    match t
    case Builtin(o) => o == oid && oid in c.builtins
    case PgType(name, o, kind, schema) =>
      && o == oid && oid !in c.builtins && oid in c.rows && name == c.rows[oid].name && schema == c.rows[oid].schema
      && var row := c.rows[oid];
         match kind
         case Enum(variants) => row.typtype == 'e' && IsLabelsOf(c, oid, variants)
         case Pseudo => row.typtype == 'p'
         case Domain(inner) => IsStructured(row) && row.base != 0 && Denotes(c, row.base, inner)
         case Array(element) => IsStructured(row) && row.base == 0 && row.element != 0 && Denotes(c, row.element, element)
         case Composite(fields) =>
           && IsStructured(row) && row.base == 0 && row.element == 0 && row.relation != 0
           && var attributes := if row.relation in c.attributes then c.attributes[row.relation] else [];
              && |attributes| == |fields|
              && forall i :: 0 <= i < |fields| ==>
                   fields[i].name == attributes[i].name && Denotes(c, attributes[i].oid, fields[i].fieldType)
         case Range(subtype) =>
           && IsStructured(row) && row.base == 0 && row.element == 0 && row.relation == 0
           && c.hasRanges && row.subtype.Some? && Denotes(c, row.subtype.value, subtype)
         case Simple =>
           && IsStructured(row) && row.base == 0 && row.element == 0 && row.relation == 0
           && !(c.hasRanges && row.subtype.Some?)
  }

  lemma {:induction false} PartsResolve(c: Catalog, rank: Oid -> nat, oids: seq<Oid>, bound: nat, parts: seq<PgType>)
    requires Acyclic(c, rank) && |parts| == |oids|
    requires forall i :: 0 <= i < |oids| ==> Level(c, rank, oids[i]) < bound
    ensures ResolveAll(c, rank, oids, bound) == Ok(parts) <==>
            forall i :: 0 <= i < |oids| ==> Resolve(c, rank, oids[i]) == Ok(parts[i])
    decreases |oids|
  {
    if oids != [] {
      PartsResolve(c, rank, oids[1..], bound, parts[1..]);
      assert parts == [parts[0]] + parts[1..];
      if forall i :: 0 <= i < |oids| ==> Resolve(c, rank, oids[i]) == Ok(parts[i]) {
        assert forall i :: 0 <= i < |oids| - 1 ==> Resolve(c, rank, oids[1..][i]) == Ok(parts[1..][i]);
      }
      if ResolveAll(c, rank, oids, bound) == Ok(parts) {
        assert ResolveAll(c, rank, oids[1..], bound).value == parts[1..];
        assert forall i :: 1 <= i < |oids| ==> oids[1..][i - 1] == oids[i] && parts[1..][i - 1] == parts[i];
      }
    }
  }

  lemma NeedsBelow(c: Catalog, rank: Oid -> nat, oid: Oid)
    requires Acyclic(c, rank) && oid !in c.builtins && oid in c.rows
    ensures forall i :: 0 <= i < |Needs(c, c.rows[oid])| ==> Level(c, rank, Needs(c, c.rows[oid])[i]) < Level(c, rank, oid)
  {}

  /** What is resolved is what is denoted. */
  lemma {:induction false} ResolvedIsDenoted(c: Catalog, rank: Oid -> nat, oid: Oid)
    requires Acyclic(c, rank) && Resolve(c, rank, oid).Ok?
    ensures Denotes(c, oid, Resolve(c, rank, oid).value)
    decreases Level(c, rank, oid)
  {
    if oid !in c.builtins {
      var row := c.rows[oid];
      var needs := Needs(c, row);
      NeedsBelow(c, rank, oid);
      var parts := ResolveAll(c, rank, needs, Level(c, rank, oid)).value;
      PartsResolve(c, rank, needs, Level(c, rank, oid), parts);
      forall i | 0 <= i < |needs| ensures Denotes(c, needs[i], parts[i]) {
        ResolvedIsDenoted(c, rank, needs[i]);
      }
    }
  }

  /** The types that a denoted type is made of. */
  function PartsOf(t: PgType): seq<PgType>
    requires t.PgType?
  {
    match t.kind
    case Enum(_) => []
    case Pseudo => []
    case Simple => []
    case Domain(inner) => [inner]
    case Array(element) => [element]
    case Range(subtype) => [subtype]
    case Composite(fields) => seq(|fields|, i requires 0 <= i < |fields| => fields[i].fieldType)
  }

  lemma DenotedParts(c: Catalog, oid: Oid, t: PgType)
    requires Denotes(c, oid, t) && t.PgType?
    ensures var needs := Needs(c, c.rows[oid]);
            && |PartsOf(t)| == |needs| && t.kind == KindOf(c, oid, c.rows[oid], PartsOf(t))
            && forall i :: 0 <= i < |needs| ==> Denotes(c, needs[i], PartsOf(t)[i])
  {
    var row := c.rows[oid];
    if t.kind.Composite? {
      var fields := FieldsOf(AttributesOf(c, row.relation), PartsOf(t));
      assert forall i :: 0 <= i < |fields| ==> fields[i] == t.kind.fields[i];
      assert fields == t.kind.fields;
    }
  }

  lemma {:induction false} DenotedIsResolved(c: Catalog, rank: Oid -> nat, oid: Oid, t: PgType)
    requires Acyclic(c, rank) && Denotes(c, oid, t)
    ensures Resolve(c, rank, oid) == Ok(t)
    decreases Level(c, rank, oid)
  {
    if oid !in c.builtins {
      var needs := Needs(c, c.rows[oid]);
      NeedsBelow(c, rank, oid);
      DenotedParts(c, oid, t);
      forall i | 0 <= i < |needs| ensures Resolve(c, rank, needs[i]) == Ok(PartsOf(t)[i]) {
        DenotedIsResolved(c, rank, needs[i], PartsOf(t)[i]);
      }
      PartsResolve(c, rank, needs, Level(c, rank, oid), PartsOf(t));
    }
  }

  /** Resolution gives a type if and only if that is the type the OID denotes. */
  lemma ResolveIsDenotation(c: Catalog, rank: Oid -> nat, oid: Oid, t: PgType)
    requires Acyclic(c, rank)
    ensures Resolve(c, rank, oid) == Ok(t) <==> Denotes(c, oid, t)
  {
    if Resolve(c, rank, oid) == Ok(t) {
      ResolvedIsDenoted(c, rank, oid);
    }
    if Denotes(c, oid, t) {
      DenotedIsResolved(c, rank, oid, t);
    }
  }

  // ---------------------------------------------------------------------------
  // When resolution fails
  // ---------------------------------------------------------------------------

  ghost predicate Missing(c: Catalog, oid: Oid) { oid !in c.builtins && oid !in c.rows }

  /** Each type on the path is made of the next one. */
  ghost predicate Path(c: Catalog, p: seq<Oid>)
    decreases |p|
  {
    p != [] && (|p| > 1 ==>
      && p[0] !in c.builtins && p[0] in c.rows && p[1] in Needs(c, c.rows[p[0]])
      && Path(c, p[1..]))
  }

  ghost predicate LeadsToMissing(c: Catalog, p: seq<Oid>, oid: Oid) {
    Path(c, p) && p[0] == oid && Missing(c, Last(p))
  }

  lemma {:induction false} FailureHasPath(c: Catalog, rank: Oid -> nat, oid: Oid) returns (p: seq<Oid>)
    requires Acyclic(c, rank) && Resolve(c, rank, oid).Err?
    ensures LeadsToMissing(c, p, oid)
    decreases Level(c, rank, oid), 1, 0
  {
    if oid !in c.rows {
      p := [oid];
    } else {
      var needs := Needs(c, c.rows[oid]);
      assert forall i :: 0 <= i < |needs| ==> Level(c, rank, needs[i]) < Level(c, rank, oid);
      var i := FirstFailure(c, rank, needs, Level(c, rank, oid));
      var q := FailureHasPath(c, rank, needs[i]);
      p := [oid] + q;
      assert p[1..] == q && p[1] == needs[i];
    }
  }

  lemma {:induction false} FirstFailure(c: Catalog, rank: Oid -> nat, oids: seq<Oid>, bound: nat) returns (i: nat)
    requires Acyclic(c, rank)
    requires forall i :: 0 <= i < |oids| ==> Level(c, rank, oids[i]) < bound
    requires ResolveAll(c, rank, oids, bound).Err?
    ensures i < |oids| && Resolve(c, rank, oids[i]).Err?
    decreases |oids|
  {
    if Resolve(c, rank, oids[0]).Err? {
      i := 0;
    } else {
      var j := FirstFailure(c, rank, oids[1..], bound);
      i := j + 1;
    }
  }

  lemma {:induction false} OneFails(c: Catalog, rank: Oid -> nat, oids: seq<Oid>, bound: nat, i: nat)
    requires Acyclic(c, rank)
    requires forall i :: 0 <= i < |oids| ==> Level(c, rank, oids[i]) < bound
    requires i < |oids| && Resolve(c, rank, oids[i]).Err?
    ensures ResolveAll(c, rank, oids, bound).Err?
    decreases |oids|
  {
    if i > 0 {
      OneFails(c, rank, oids[1..], bound, i - 1);
    }
  }

  lemma {:induction false} PathFails(c: Catalog, rank: Oid -> nat, p: seq<Oid>, oid: Oid)
    requires Acyclic(c, rank) && LeadsToMissing(c, p, oid)
    ensures Resolve(c, rank, oid).Err?
    decreases |p|
  {
    if |p| > 1 {
      var needs := Needs(c, c.rows[oid]);
      var i :| 0 <= i < |needs| && needs[i] == p[1];
      assert forall i :: 0 <= i < |needs| ==> Level(c, rank, needs[i]) < Level(c, rank, oid);
      PathFails(c, rank, p[1..], p[1]);
      OneFails(c, rank, needs, Level(c, rank, oid), i);
    }
  }

  /** A type cannot be resolved exactly when what it is made of leads to a type without a row. */
  lemma ResolveFailsExactly(c: Catalog, rank: Oid -> nat, oid: Oid)
    requires Acyclic(c, rank)
    ensures Resolve(c, rank, oid).Err? <==> exists p :: LeadsToMissing(c, p, oid)
  {
    if Resolve(c, rank, oid).Err? {
      var p := FailureHasPath(c, rank, oid);
    }
    if exists p :: LeadsToMissing(c, p, oid) {
      var p :| LeadsToMissing(c, p, oid);
      PathFails(c, rank, p, oid);
    }
  }

  /** The only error is that a type has no row. */
  lemma {:induction false} FailureIsMissingRow(c: Catalog, rank: Oid -> nat, oid: Oid)
    requires Acyclic(c, rank) && Resolve(c, rank, oid).Err?
    ensures Resolve(c, rank, oid) == Err(UnexpectedMessage)
    decreases Level(c, rank, oid), 1, 0
  {
    if oid in c.rows {
      NeedsBelow(c, rank, oid);
      AllFailuresAre(c, rank, Needs(c, c.rows[oid]), Level(c, rank, oid));
    }
  }

  lemma {:induction false} AllFailuresAre(c: Catalog, rank: Oid -> nat, oids: seq<Oid>, bound: nat)
    requires Acyclic(c, rank) && (forall i :: 0 <= i < |oids| ==> Level(c, rank, oids[i]) < bound)
    requires ResolveAll(c, rank, oids, bound).Err?
    ensures ResolveAll(c, rank, oids, bound) == Err(UnexpectedMessage)
    decreases bound, 0, |oids|
  {
    if Resolve(c, rank, oids[0]).Err? {
      FailureIsMissingRow(c, rank, oids[0]);
    } else {
      AllFailuresAre(c, rank, oids[1..], bound);
    }
  }

  /** The meaning of a type does not depend on which rank shows that it exists. */
  lemma {:induction false} ResolveIsUnique(c: Catalog, rank: Oid -> nat, rank': Oid -> nat, oid: Oid)
    requires Acyclic(c, rank) && Acyclic(c, rank')
    ensures Resolve(c, rank, oid) == Resolve(c, rank', oid)
    decreases Level(c, rank, oid), 1, 0
  {
    if oid !in c.builtins && oid in c.rows {
      var needs := Needs(c, c.rows[oid]);
      assert forall i :: 0 <= i < |needs| ==> Level(c, rank, needs[i]) < Level(c, rank, oid);
      assert forall i :: 0 <= i < |needs| ==> Level(c, rank', needs[i]) < Level(c, rank', oid);
      ResolveAllIsUnique(c, rank, rank', needs, Level(c, rank, oid), Level(c, rank', oid));
    }
  }

  lemma {:induction false} ResolveAllIsUnique(c: Catalog, rank: Oid -> nat, rank': Oid -> nat, oids: seq<Oid>, bound: nat, bound': nat)
    requires Acyclic(c, rank) && Acyclic(c, rank')
    requires forall i :: 0 <= i < |oids| ==> Level(c, rank, oids[i]) < bound
    requires forall i :: 0 <= i < |oids| ==> Level(c, rank', oids[i]) < bound'
    ensures ResolveAll(c, rank, oids, bound) == ResolveAll(c, rank', oids, bound')
    decreases bound, 0, |oids|
  {
    if oids != [] {
      ResolveIsUnique(c, rank, rank', oids[0]);
      ResolveAllIsUnique(c, rank, rank', oids[1..], bound, bound');
    }
  }

  // ---------------------------------------------------------------------------
  // Statements
  // ---------------------------------------------------------------------------

  /** The bootstrap queries, and any other one with the OIDs the server will describe it by. */
  datatype Query =
    | TypeInfo | TypeInfoFallback | EnumLabels | EnumLabelsFallback | CompositeFields
    | User(parameters: seq<Oid>, columns: seq<Oid>)
    | Invalid(error: Error)

  datatype Statement = Statement(query: Query, parameters: seq<PgType>, columns: seq<PgType>)

  datatype Description = Description(parameters: seq<Oid>, columns: seq<Oid>)

  /** The server's answer to preparing a query. */
  function Describe(c: Catalog, q: Query): Result<Description, Error> {
    match q
    case TypeInfo =>
      if c.hasRanges then Ok(Description([OID], [NAME, CHAR, OID, OID, OID, NAME, OID])) else Err(UndefinedTable)
    case TypeInfoFallback => Ok(Description([OID], [NAME, CHAR, OID, OID, OID, NAME, OID]))
    case EnumLabels => if c.hasSortOrder then Ok(Description([OID], [NAME])) else Err(UndefinedColumn)
    case EnumLabelsFallback => Ok(Description([OID], [NAME]))
    case CompositeFields => Ok(Description([OID], [NAME, OID]))
    case User(parameters, columns) => Ok(Description(parameters, columns))
    case Invalid(error) => Err(error)
  }

  /** The types the bootstrap queries use are built in. */
  predicate BootstrapIsBuiltin(c: Catalog) { OID in c.builtins && NAME in c.builtins && CHAR in c.builtins }

  ghost predicate Below(c: Catalog, rank: Oid -> nat, oids: seq<Oid>, bound: nat) {
    forall i :: 0 <= i < |oids| ==> Level(c, rank, oids[i]) < bound
  }

  ghost predicate QueryBelow(c: Catalog, rank: Oid -> nat, q: Query, bound: nat) {
    Describe(c, q).Ok? ==>
      Below(c, rank, Describe(c, q).value.parameters, bound) && Below(c, rank, Describe(c, q).value.columns, bound)
  }

  lemma BootstrapBelow(c: Catalog, rank: Oid -> nat, q: Query)
    requires BootstrapIsBuiltin(c) && !q.User?
    ensures QueryBelow(c, rank, q, 1)
  {}

  /** The statement a query denotes: its types are resolved without a cache. */
  ghost function Prepared(c: Catalog, rank: Oid -> nat, q: Query, bound: nat): Result<Statement, Error>
    requires Acyclic(c, rank) && QueryBelow(c, rank, q, bound)
  {
    match Describe(c, q)
    case Err(e) => Err(e)
    case Ok(d) =>
      match ResolveAll(c, rank, d.parameters, bound)
      case Err(e) => Err(e)
      case Ok(parameters) =>
        match ResolveAll(c, rank, d.columns, bound)
        case Err(e) => Err(e)
        case Ok(columns) => Ok(Statement(q, parameters, columns))
  }

  ghost predicate AllDenote(c: Catalog, oids: seq<Oid>, types: seq<PgType>) {
    |types| == |oids| && forall i :: 0 <= i < |oids| ==> Denotes(c, oids[i], types[i])
  }

  lemma ResolveAllIsDenotation(c: Catalog, rank: Oid -> nat, oids: seq<Oid>, bound: nat, types: seq<PgType>)
    requires Acyclic(c, rank) && Below(c, rank, oids, bound)
    ensures ResolveAll(c, rank, oids, bound) == Ok(types) <==> AllDenote(c, oids, types)
  {
    if |types| == |oids| {
      PartsResolve(c, rank, oids, bound, types);
      forall i | 0 <= i < |oids| ensures Resolve(c, rank, oids[i]) == Ok(types[i]) <==> Denotes(c, oids[i], types[i]) {
        ResolveIsDenotation(c, rank, oids[i], types[i]);
      }
    }
  }

  /** A statement is prepared if and only if the server describes it and its types are those the OIDs denote. */
  lemma PreparedIsDenoted(c: Catalog, rank: Oid -> nat, q: Query, bound: nat, s: Statement)
    requires Acyclic(c, rank) && QueryBelow(c, rank, q, bound)
    ensures Prepared(c, rank, q, bound) == Ok(s) <==>
            && Describe(c, q).Ok? && s.query == q
            && AllDenote(c, Describe(c, q).value.parameters, s.parameters)
            && AllDenote(c, Describe(c, q).value.columns, s.columns)
  {
    if Describe(c, q).Ok? {
      ResolveAllIsDenotation(c, rank, Describe(c, q).value.parameters, bound, s.parameters);
      ResolveAllIsDenotation(c, rank, Describe(c, q).value.columns, bound, s.columns);
    }
  }

  // ---------------------------------------------------------------------------
  // The shared cache
  // ---------------------------------------------------------------------------

  /** What the tasks of a client share. */
  datatype Cache = Cache(
    typeinfo: Option<Statement>, typeinfoEnum: Option<Statement>, typeinfoComposite: Option<Statement>,
    types: map<Oid, PgType>)

  const EMPTY_CACHE := Cache(None, None, None, map[])

  /** The statement can be run on this server, and is the one wanted. */
  predicate Serves(c: Catalog, s: Option<Statement>, wanted: Query, fallback: Query) {
    s.Some? ==> s.value.query == if Describe(c, wanted).Ok? then wanted else fallback
  }

  /** Every entry is what resolution without a cache gives. */
  predicate Consistent(c: Catalog, ghost rank: Oid -> nat, cache: Cache)
    requires Acyclic(c, rank)
  {
    && (forall oid :: oid in cache.types ==> Resolve(c, rank, oid) == Ok(cache.types[oid]))
    && Serves(c, cache.typeinfo, TypeInfo, TypeInfoFallback)
    && Serves(c, cache.typeinfoEnum, EnumLabels, EnumLabelsFallback)
    && Serves(c, cache.typeinfoComposite, CompositeFields, CompositeFields)
  }

  class InnerClient {
    const catalog: Catalog
    ghost const rank: Oid -> nat
    var cache: Cache

    ghost predicate Valid()
      reads this
    {
      Acyclic(catalog, rank) && BootstrapIsBuiltin(catalog) && Consistent(catalog, rank, cache)
    }

    constructor (catalog: Catalog, ghost rank: Oid -> nat)
      requires Acyclic(catalog, rank) && BootstrapIsBuiltin(catalog)
      ensures this.catalog == catalog && this.rank == rank && cache == EMPTY_CACHE && Valid()
    {
      this.catalog, this.rank, cache := catalog, rank, EMPTY_CACHE;
    }

    /** While a task waits for the server, others may fill or clear the cache; and the connection may break. */
    method Await() returns (connected: bool)
      requires Valid()
      modifies `cache
      ensures Valid()
    {
      var others: Cache := *;
      if Consistent(catalog, rank, others) {
        cache := others;
      }
      connected := *;
    }

    method ClearTypeCache()
      requires Valid()
      modifies `cache
      ensures Valid() && cache == old(cache).(types := map[])
    {
      cache := cache.(types := map[]);
    }

    method SetType(oid: Oid, t: PgType)
      requires Valid() && Resolve(catalog, rank, oid) == Ok(t)
      modifies `cache
      ensures Valid() && cache == old(cache).(types := old(cache).types[oid := t])
    {
      cache := cache.(types := cache.types[oid := t]);
    }

    /** `bound` is above the levels of all types the query uses; it decreases along the recursion. */
    method Prepare(q: Query, ghost bound: nat) returns (r: Result<Statement, Error>)
      requires Valid() && QueryBelow(catalog, rank, q, bound)
      modifies `cache
      ensures Valid()
      ensures r == Err(ConnectionLost) || r == Prepared(catalog, rank, q, bound)
      decreases bound, 1
    {
      var connected := Await();
      if !connected {
        return Err(ConnectionLost);
      }
      var description := Describe(catalog, q);
      if description.Err? {
        return Err(description.error);
      }
      var parameters := GetTypes(description.value.parameters, bound);
      if parameters.Err? {
        return Err(parameters.error);
      }
      var columns := GetTypes(description.value.columns, bound);
      if columns.Err? {
        return Err(columns.error);
      }
      return Ok(Statement(q, parameters.value, columns.value));
    }

    method GetTypes(oids: seq<Oid>, ghost bound: nat) returns (r: Result<seq<PgType>, Error>)
      requires Valid() && Below(catalog, rank, oids, bound)
      modifies `cache
      ensures Valid()
      ensures r == Err(ConnectionLost) || r == ResolveAll(catalog, rank, oids, bound)
      decreases bound, 0
    {
      var types: seq<PgType> := [];
      assert oids[0..] == oids;
      NothingResolved(ResolveAll(catalog, rank, oids, bound));
      for i := 0 to |oids|
        invariant Valid()
        invariant Below(catalog, rank, oids[i..], bound)
        invariant ResolvedSoFar(types, ResolveAll(catalog, rank, oids[i..], bound)) == ResolveAll(catalog, rank, oids, bound)
      {
        ghost var rest := oids[i..];
        assert rest[0] == oids[i] && rest[1..] == oids[i + 1..];
        var t := GetType(oids[i]);
        if t.Err? {
          return Err(t.error);
        }
        ResolvedOneMore(types, t.value, ResolveAll(catalog, rank, rest[1..], bound));
        types := types + [t.value];
      }
      AppendEmpty(types);
      return Ok(types);
    }

    /** Whatever the cache holds, the result is the type that resolution without a cache gives. */
    method GetType(oid: Oid) returns (r: Result<PgType, Error>)
      requires Valid()
      modifies `cache
      ensures Valid()
      ensures r == Err(ConnectionLost) || r == Resolve(catalog, rank, oid)
      ensures r.Ok? ==> Denotes(catalog, oid, r.value)
      ensures r.Ok? && oid !in catalog.builtins ==> oid in cache.types && cache.types[oid] == r.value
      decreases Level(catalog, rank, oid), 5
    {
      if oid in catalog.builtins {
        return Ok(Builtin(oid));
      }
      if oid in cache.types {
        ResolvedIsDenoted(catalog, rank, oid);
        return Ok(cache.types[oid]);
      }
      var stmt := TypeinfoStatement();
      if stmt.Err? {
        return Err(stmt.error);
      }
      var connected := Await();
      if !connected {
        return Err(ConnectionLost);
      }
      if oid !in catalog.rows {
        return Err(UnexpectedMessage);
      }
      var row := catalog.rows[oid];
      var subtype := if stmt.value.query.TypeInfoFallback? then None else row.subtype;
      var needs := Needs(catalog, row);
      assert Below(catalog, rank, needs, Level(catalog, rank, oid));
      var kind: Kind;
      if row.typtype == 'e' {
        var variants := GetEnumVariants(oid);
        if variants.Err? {
          return Err(variants.error);
        }
        kind := Enum(variants.value);
      } else if row.typtype == 'p' {
        kind := Pseudo;
      } else if row.base != 0 {
        assert needs[0] == row.base;
        ResolveOne(catalog, rank, row.base, Level(catalog, rank, oid));
        var t := GetType(row.base);
        if t.Err? {
          return Err(t.error);
        }
        kind := Domain(t.value);
      } else if row.element != 0 {
        assert needs[0] == row.element;
        ResolveOne(catalog, rank, row.element, Level(catalog, rank, oid));
        var t := GetType(row.element);
        if t.Err? {
          return Err(t.error);
        }
        kind := Array(t.value);
      } else if row.relation != 0 {
        var fields := GetCompositeFields(row.relation, Level(catalog, rank, oid));
        if fields.Err? {
          return Err(fields.error);
        }
        kind := Composite(fields.value);
      } else if subtype.Some? {
        assert needs[0] == subtype.value;
        ResolveOne(catalog, rank, subtype.value, Level(catalog, rank, oid));
        var t := GetType(subtype.value);
        if t.Err? {
          return Err(t.error);
        }
        kind := Range(t.value);
      } else {
        kind := Simple;
      }
      var t := PgType(row.name, oid, kind, row.schema);
      SetType(oid, t);
      ResolvedIsDenoted(catalog, rank, oid);
      return Ok(t);
    }

    method TypeinfoStatement() returns (r: Result<Statement, Error>)
      requires Valid()
      modifies `cache
      ensures Valid() && (r.Ok? ==> Serves(catalog, Some(r.value), TypeInfo, TypeInfoFallback))
      ensures r.Err? ==> r.error == ConnectionLost
      decreases 1, 3
    {
      if cache.typeinfo.Some? {
        return Ok(cache.typeinfo.value);
      }
      r := PrepareBootstrap(TypeInfo);
      if r.Err? && r.error.UndefinedTable? {
        r := PrepareBootstrap(TypeInfoFallback);
      }
      if r.Ok? {
        cache := cache.(typeinfo := Some(r.value));
      }
    }

    method TypeinfoEnumStatement() returns (r: Result<Statement, Error>)
      requires Valid()
      modifies `cache
      ensures Valid() && (r.Ok? ==> Serves(catalog, Some(r.value), EnumLabels, EnumLabelsFallback))
      ensures r.Err? ==> r.error == ConnectionLost
      decreases 1, 3
    {
      if cache.typeinfoEnum.Some? {
        return Ok(cache.typeinfoEnum.value);
      }
      r := PrepareBootstrap(EnumLabels);
      if r.Err? && r.error.UndefinedColumn? {
        r := PrepareBootstrap(EnumLabelsFallback);
      }
      if r.Ok? {
        cache := cache.(typeinfoEnum := Some(r.value));
      }
    }

    method TypeinfoCompositeStatement() returns (r: Result<Statement, Error>)
      requires Valid()
      modifies `cache
      ensures Valid() && (r.Ok? ==> r.value.query == CompositeFields)
      ensures r.Err? ==> r.error == ConnectionLost
      decreases 1, 3
    {
      if cache.typeinfoComposite.Some? {
        return Ok(cache.typeinfoComposite.value);
      }
      r := PrepareBootstrap(CompositeFields);
      if r.Ok? {
        cache := cache.(typeinfoComposite := Some(r.value));
      }
    }

    /** Preparing a bootstrap query looks up built-in types only, so it does not recurse. */
    method PrepareBootstrap(q: Query) returns (r: Result<Statement, Error>)
      requires Valid() && !q.User?
      modifies `cache
      ensures Valid()
      ensures r == Err(ConnectionLost) ||
              (if Describe(catalog, q).Ok? then r.Ok? && r.value.query == q else r == Err(Describe(catalog, q).error))
      decreases 1, 2
    {
      BootstrapBelow(catalog, rank, q);
      BuiltinsResolve(catalog, rank, q);
      r := Prepare(q, 1);
    }

    method GetEnumVariants(oid: Oid) returns (r: Result<seq<string>, Error>)
      requires Valid()
      modifies `cache
      ensures Valid()
      ensures r == Err(ConnectionLost) || r == Ok(LabelsOf(catalog, oid))
      decreases 1, 4
    {
      var stmt := TypeinfoEnumStatement();
      if stmt.Err? {
        return Err(stmt.error);
      }
      var connected := Await();
      if !connected {
        return Err(ConnectionLost);
      }
      var m := if stmt.value.query.EnumLabels? then catalog.labels else catalog.oldLabels;
      return Ok(if oid in m then m[oid] else []);
    }

    method GetCompositeFields(relation: Oid, ghost bound: nat) returns (r: Result<seq<Field>, Error>)
      requires Valid() && bound > 0 && Below(catalog, rank, OidsOf(AttributesOf(catalog, relation)), bound)
      modifies `cache
      ensures Valid()
      ensures r == Err(ConnectionLost) ||
              match ResolveAll(catalog, rank, OidsOf(AttributesOf(catalog, relation)), bound)
              case Err(e) => r == Err(e)
              case Ok(parts) => r == Ok(FieldsOf(AttributesOf(catalog, relation), parts))
      decreases bound, 4
    {
      var stmt := TypeinfoCompositeStatement();
      if stmt.Err? {
        return Err(stmt.error);
      }
      var connected := Await();
      if !connected {
        return Err(ConnectionLost);
      }
      var attributes := AttributesOf(catalog, relation);
      var types := GetTypes(OidsOf(attributes), bound);
      if types.Err? {
        return Err(types.error);
      }
      return Ok(FieldsOf(attributes, types.value));
    }
  }

  /** `types` in front of what is still to be resolved. */
  function ResolvedSoFar(types: seq<PgType>, rest: Result<seq<PgType>, Error>): Result<seq<PgType>, Error> {
    match rest
    case Err(e) => Err(e)
    case Ok(ts) => Ok(types + ts)
  }

  lemma NothingResolved(rest: Result<seq<PgType>, Error>)
    ensures ResolvedSoFar([], rest) == rest
  {
    if rest.Ok? {
      AppendEmpty(rest.value);
    }
  }

  lemma ResolvedOneMore(types: seq<PgType>, t: PgType, rest: Result<seq<PgType>, Error>)
    ensures ResolvedSoFar(types, ResolvedSoFar([t], rest)) == ResolvedSoFar(types + [t], rest)
  {
    if rest.Ok? {
      AppendAssoc(types, [t], rest.value);
    }
  }

  lemma ResolveOne(c: Catalog, rank: Oid -> nat, oid: Oid, bound: nat)
    requires Acyclic(c, rank) && Level(c, rank, oid) < bound
    ensures Below(c, rank, [oid], bound)
    ensures ResolveAll(c, rank, [oid], bound) ==
            match Resolve(c, rank, oid) case Err(e) => Err(e) case Ok(t) => Ok([t])
  {
    var tail := [oid][1..];
    assert tail == [] && ResolveAll(c, rank, tail, bound) == Ok([]);
    if Resolve(c, rank, oid).Ok? {
      AppendEmpty([Resolve(c, rank, oid).value]);
    }
  }

  lemma {:induction false} AllBuiltin(c: Catalog, rank: Oid -> nat, oids: seq<Oid>)
    requires Acyclic(c, rank) && forall i :: 0 <= i < |oids| ==> oids[i] in c.builtins
    ensures Below(c, rank, oids, 1) && ResolveAll(c, rank, oids, 1).Ok?
    decreases |oids|
  {
    if oids != [] {
      AllBuiltin(c, rank, oids[1..]);
    }
  }

  lemma BuiltinsResolve(c: Catalog, rank: Oid -> nat, q: Query)
    requires Acyclic(c, rank) && BootstrapIsBuiltin(c) && !q.User?
    ensures QueryBelow(c, rank, q, 1)
    ensures Describe(c, q).Ok? ==> Prepared(c, rank, q, 1).Ok? && Prepared(c, rank, q, 1).value.query == q
  {
    if Describe(c, q).Ok? {
      AllBuiltin(c, rank, Describe(c, q).value.parameters);
      AllBuiltin(c, rank, Describe(c, q).value.columns);
    }
  }
}
