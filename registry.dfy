/** The material registry: five property tables indexed by material
    ordinal, filled from a configuration that lists one record per
    material. The tables are mutable state of class Cell; the movement
    rules read a Table value, which Cell.Snapshot gives. */
module Registry {
  import opened Materials

  /** One parsed record of the configuration's "elements" array. */
  datatype Record = Record(index: int, kind: Type, weight: int, viscosity: int, name: string)

  /** The parsed configuration: its "elements" entry is missing, is not an
      array, or is an array of records. */
  datatype Config = Missing | NotAnArray | Elements(records: seq<Record>)

  datatype ConfigError = InvalidFormat | InvalidCount

  datatype Outcome = Loaded | Rejected(error: ConfigError)

  /** Why a configuration is refused, if it is: a missing or non-array
      "elements" entry, or a number of records other than Count. */
  function Check(config: Config): (r: Outcome)
    ensures r == Loaded <==> config.Elements? && |config.records| == Count
    ensures r == Rejected(InvalidFormat) <==> !config.Elements?
  {
    match config
    case Missing => Rejected(InvalidFormat)
    case NotAnArray => Rejected(InvalidFormat)
    case Elements(records) => if |records| != Count then Rejected(InvalidCount) else Loaded
  }

  /** Every record names a slot of the tables. */
  predicate IndexesInRange(records: seq<Record>) {
    forall k :: 0 <= k < |records| ==> 0 <= records[k].index < Count
  }

  /** What a load demands of its records: an accepted configuration's
      records all name a slot of the tables. */
  predicate Loadable(config: Config) {
    Check(config) == Loaded ==> IndexesInRange(config.records)
  }

  /** The tables after writing one record into the slot it names; the
      colour comes from the fixed palette, not from the record. */
  function Write(t: Table, r: Record): (u: Table)
    requires 0 <= r.index < Count
    ensures forall e: Element :: e as int != r.index ==> PropertiesOf(u, e) == PropertiesOf(t, e)
    ensures PropertiesOf(u, r.index as Element) == Properties(r.kind, ParticleColors[r.index], r.weight, r.viscosity, r.name)
  {
    var i := r.index;
    Catalogue(t.types[i := r.kind], t.colors[i := ParticleColors[i]], t.weights[i := r.weight], t.viscosity[i := r.viscosity], t.names[i := r.name])
  }

  /** The tables after writing the records in order. */
  function Load(t: Table, records: seq<Record>): Table
    requires IndexesInRange(records)
    decreases |records|
  {
    if records == [] then t
    else Write(Load(t, records[..|records| - 1]), records[|records| - 1])
  }

  /** All five properties of one material. */
  datatype Properties = Properties(kind: Type, color: Color, weight: int, viscosity: int, name: string)

  function PropertiesOf(t: Table, e: Element): Properties {
    Properties(TypeOf(t, e), ColorOf(t, e), WeightOf(t, e), ViscosityOf(t, e), NameOf(t, e))
  }

  /** A slot no record names keeps what it held before the load. */
  lemma {:induction false} LoadUntouched(t: Table, records: seq<Record>, e: Element)
    requires IndexesInRange(records)
    requires forall k :: 0 <= k < |records| ==> records[k].index != e as int
    ensures PropertiesOf(Load(t, records), e) == PropertiesOf(t, e)
    decreases |records|
  {
    if records != [] {
      LoadUntouched(t, records[..|records| - 1], e);
    }
  }

  /** A slot holds the last record that names it: its type, weight,
      viscosity and name, and the palette's colour for that slot. */
  lemma {:induction false} LoadLastWins(t: Table, records: seq<Record>, j: int)
    requires IndexesInRange(records) && 0 <= j < |records|
    requires forall k :: j < k < |records| ==> records[k].index != records[j].index
    ensures var r := records[j];
            PropertiesOf(Load(t, records), r.index as Element) == Properties(r.kind, ParticleColors[r.index], r.weight, r.viscosity, r.name)
    decreases |records|
  {
    if j < |records| - 1 {
      LoadLastWins(t, records[..|records| - 1], j);
    }
  }

  /** Some record names the slot of `e`. */
  predicate Named(records: seq<Record>, e: Element) {
    exists k :: 0 <= k < |records| && records[k].index == e as int
  }

  /** When every slot is named by some record, the tables after the load do
      not depend on what they held before. */
  lemma LoadCovers(t1: Table, t2: Table, records: seq<Record>)
    requires IndexesInRange(records)
    requires forall e: Element :: Named(records, e)
    ensures Load(t1, records) == Load(t2, records)
  {
    forall e: Element
      ensures PropertiesOf(Load(t1, records), e) == PropertiesOf(Load(t2, records), e)
    {
      assert Named(records, e);
      var k :| 0 <= k < |records| && records[k].index == e as int;
      var j := Last(records, k);
      LoadLastWins(t1, records, j);
      LoadLastWins(t2, records, j);
    }
    SameProperties(Load(t1, records), Load(t2, records));
  }

  /** The last position at or after k whose record names the same slot as
      the record at k. */
  function Last(records: seq<Record>, k: int): (j: int)
    requires 0 <= k < |records|
    ensures k <= j < |records| && records[j].index == records[k].index
    ensures forall m :: j < m < |records| ==> records[m].index != records[k].index
    decreases |records| - k
  {
    if exists m :: k < m < |records| && records[m].index == records[k].index then
      var m :| k < m < |records| && records[m].index == records[k].index;
      Last(records, m)
    else k
  }

  /** Tables that agree on every material's properties are equal. */
  lemma SameProperties(t1: Table, t2: Table)
    requires forall e: Element :: PropertiesOf(t1, e) == PropertiesOf(t2, e)
    ensures t1 == t2
  {
    forall i | 0 <= i < Count
      ensures t1.types[i] == t2.types[i] && t1.colors[i] == t2.colors[i] && t1.weights[i] == t2.weights[i]
      ensures t1.viscosity[i] == t2.viscosity[i] && t1.names[i] == t2.names[i]
    {
      assert PropertiesOf(t1, i as Element) == PropertiesOf(t2, i as Element);
    }
  }

  /** The static property tables. */
  class Cell {
    const types: array<Type>
    const colors: array<Color>
    const weights: array<int>
    const viscosity: array<int>
    const names: array<string>

    ghost predicate Valid() reads this {
      && types.Length == Count && colors.Length == Count && weights.Length == Count
      && viscosity.Length == Count && names.Length == Count && weights != viscosity
    }

    /** The tables as a value, as the movement rules read them. */
    function Snapshot(): (t: Table)
      requires Valid()
      reads this, types, colors, weights, viscosity, names
      ensures forall e: Element :: PropertiesOf(t, e) == Properties(types[e], colors[e], weights[e], viscosity[e], names[e])
    {
      Catalogue(types[..], colors[..], weights[..], viscosity[..], names[..])
    }

    /** Static storage starts zeroed: every type Empty, every colour blank,
        every weight and viscosity 0, every name empty. */
    constructor ()
      ensures Valid() && Snapshot() == Unset
      ensures fresh(types) && fresh(colors) && fresh(weights) && fresh(viscosity) && fresh(names)
    {
      types := new Type[Count](_ => Empty);
      colors := new Color[Count](_ => Blank);
      weights := new int[Count](_ => 0);
      viscosity := new int[Count](_ => 0);
      names := new string[Count](_ => "");
    }

    function GetType(element: Element): (r: Type)
      requires Valid()
      reads this, types, colors, weights, viscosity, names
      ensures r == TypeOf(Snapshot(), element)
    {
      types[element]
    }

    function GetColor(element: Element): (r: Color)
      requires Valid()
      reads this, types, colors, weights, viscosity, names
      ensures r == ColorOf(Snapshot(), element)
    {
      colors[element]
    }

    function GetWeight(element: Element): (r: int)
      requires Valid()
      reads this, types, colors, weights, viscosity, names
      ensures r == WeightOf(Snapshot(), element)
    {
      weights[element]
    }

    function GetViscosity(element: Element): (r: int)
      requires Valid()
      reads this, types, colors, weights, viscosity, names
      ensures r == ViscosityOf(Snapshot(), element)
    {
      viscosity[element]
    }

    function GetName(element: Element): (r: string)
      requires Valid()
      reads this, types, colors, weights, viscosity, names
      ensures r == NameOf(Snapshot(), element)
    {
      names[element]
    }

    /** The colour table, one entry per material. */
    function GetColorTable(): (r: seq<Color>)
      requires Valid()
      reads this, colors
      ensures |r| == Count && forall e: Element :: r[e] == colors[e]
    {
      colors[..]
    }

    /** Writes one record into the slot it names, with the palette's colour
        for that slot. */
    method Store(record: Record)
      requires Valid() && 0 <= record.index < Count
      modifies types, colors, weights, viscosity, names
      ensures Snapshot() == Write(old(Snapshot()), record)
    {
      var index := record.index;
      types[index] := record.kind;
      weights[index] := record.weight;
      viscosity[index] := record.viscosity;
      names[index] := record.name;
      colors[index] := ParticleColors[index];
    }

    /** Refuses a configuration whose "elements" entry is missing, not an
        array or not exactly Count records long, leaving the tables as they
        were; otherwise writes each record, in order, into the slot it
        names. */
    method LoadElements(config: Config) returns (outcome: Outcome)
      requires Valid() && Loadable(config)
      modifies types, colors, weights, viscosity, names
      ensures outcome == Check(config)
      ensures outcome == Loaded ==> Snapshot() == Load(old(Snapshot()), config.records)
      ensures outcome != Loaded ==> Snapshot() == old(Snapshot())
    {
      outcome := Check(config);
      if outcome != Loaded {
        return;
      }
      var records := config.records;
      var i := 0;
      while i < |records|
        invariant 0 <= i <= |records|
        invariant Snapshot() == Load(old(Snapshot()), records[..i])
      {
        assert records[..i + 1][..i] == records[..i];
        Store(records[i]);
        i := i + 1;
      }
      assert records[..i] == records;
    }
  }
}
