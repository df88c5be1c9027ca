/** The pure parts of `ProvinceParser`: reading the semicolon-separated
    definition lines into province records, deriving province adjacency from a
    grid of pixel colours, and the all-or-nothing result of `TryParse`. */
module ProvinceParser {
  import opened Wrappers
  import opened RgbColor
  import opened TextFields

  datatype ProvinceKind = Land | Sea

  datatype Province = Province(
    id: int,
    color: Rgb,
    kind: ProvinceKind,
    isCoastal: bool,
    terrain: string,
    continentId: int,
    adjacencies: set<int>)

  /** The number a field reads as, 0 when it does not parse. */
  function IntOrZero(field: string): int {
    match TryParseInt(field)
    case Some(v) => v
    case None => 0
  }

  function ByteOrZero(field: string): byte {
    match TryParseByte(field)
    case Some(v) => v as byte
    case None => 0
  }

  /** One definition line: `id;r;g;b;type;coastal;terrain;continent`. A line
      with fewer than eight fields fails on the first missing index; extra
      fields are ignored. */
  function ParseLine(line: string): (r: Result<Province>)
    ensures r.Failure? <==> |Split(line, ';')| < 8
    ensures r.Failure? ==> r.error == IndexOutOfRange
  {
    ParseFields(Split(line, ';'))
  }

  function ParseFields(f: seq<string>): (r: Result<Province>)
    ensures r.Failure? <==> |f| < 8
    ensures r.Failure? ==> r.error == IndexOutOfRange
  {
    if |f| < 8 then Failure(IndexOutOfRange)
    else
      Success(Province(
        IntOrZero(f[0]),
        Rgb(ByteOrZero(f[1]), ByteOrZero(f[2]), ByteOrZero(f[3])),
        if EqualsIgnoreCase(f[4], "land") then Land else Sea,
        TryParseBool(f[5]) == Some(true),
        f[6],
        IntOrZero(f[7]),
        {}))
  }

  /** What each field of a definition line becomes: a number that does not
      parse reads as 0, the type is Land exactly for "land" in any letter case,
      the coastal flag is set only by a boolean `true`, and the terrain is
      kept verbatim. */
  lemma ParseFieldsMeaning(f: seq<string>)
    requires |f| >= 8
    ensures var p := ParseFields(f).value;
            && (TryParseInt(f[0]).None? ==> p.id == 0)
            && (TryParseInt(f[0]).Some? ==> p.id == TryParseInt(f[0]).value)
            && (TryParseByte(f[1]).None? ==> p.color.r == 0)
            && (TryParseByte(f[2]).None? ==> p.color.g == 0)
            && (TryParseByte(f[3]).None? ==> p.color.b == 0)
            && (TryParseByte(f[1]).Some? ==> p.color.r as int == TryParseByte(f[1]).value)
            && (p.kind == Land <==> EqualsIgnoreCase(f[4], "land"))
            && (p.isCoastal <==> TryParseBool(f[5]) == Some(true))
            && p.terrain == f[6]
            && (TryParseInt(f[7]).None? ==> p.continentId == 0)
            && p.adjacencies == {}
  {
  }

  /** No later record of `records` has the id of record `i`. */
  ghost predicate LastWithId(records: seq<Province>, i: int)
    requires 0 <= i < |records|
  {
    forall j :: i < j < |records| ==> records[j].id != records[i].id
  }

  /** No later record of `records` has the colour of record `i`. */
  ghost predicate LastWithColor(records: seq<Province>, i: int)
    requires 0 <= i < |records|
  {
    forall j :: i < j < |records| ==> records[j].color != records[i].color
  }

  function Ids(records: seq<Province>): set<int> {
    set i | 0 <= i < |records| :: records[i].id
  }

  function Colors(records: seq<Province>): set<Rgb> {
    set i | 0 <= i < |records| :: records[i].color
  }

  lemma IdsAppend(records: seq<Province>, p: Province)
    ensures Ids(records + [p]) == Ids(records) + {p.id}
    ensures Colors(records + [p]) == Colors(records) + {p.color}
  {
    var rs := records + [p];
    assert rs[|records|] == p;
    assert forall i :: 0 <= i < |records| ==> rs[i] == records[i];
    assert forall x :: x in Ids(rs) ==> x in Ids(records) + {p.id};
    assert forall x :: x in Colors(rs) ==> x in Colors(records) + {p.color};
  }

  /** The two dictionaries after the records are stored in order, each line
      overwriting an earlier entry with the same id or the same colour. */
  ghost predicate Indexed(records: seq<Province>, provinces: map<int, Province>, colorToId: map<Rgb, int>) {
    && provinces.Keys == Ids(records)
    && colorToId.Keys == Colors(records)
    && (forall i :: 0 <= i < |records| && LastWithId(records, i) ==> provinces[records[i].id] == records[i])
    && (forall i :: 0 <= i < |records| && LastWithColor(records, i) ==> colorToId[records[i].color] == records[i].id)
    && (forall c :: c in colorToId ==> colorToId[c] in provinces)
  }

  /** The id dictionary after storing `records` in order. */
  function ProvinceIndex(records: seq<Province>): map<int, Province>
    decreases |records|
  {
    if |records| == 0 then map[]
    else
      var p := records[|records| - 1];
      ProvinceIndex(records[..|records| - 1])[p.id := p]
  }

  /** The colour dictionary after storing `records` in order. */
  function ColorIndex(records: seq<Province>): map<Rgb, int>
    decreases |records|
  {
    if |records| == 0 then map[]
    else
      var p := records[|records| - 1];
      ColorIndex(records[..|records| - 1])[p.color := p.id]
  }

  lemma LastWithIdAppend(records: seq<Province>, p: Province, i: int)
    requires 0 <= i < |records|
    requires LastWithId(records + [p], i)
    ensures LastWithId(records, i) && p.id != records[i].id
  {
    var rs := records + [p];
    assert rs[|records|] == p && rs[i] == records[i];
    forall j | i < j < |records|
      ensures records[j].id != records[i].id
    {
      assert rs[j] == records[j];
    }
  }

  lemma LastWithColorAppend(records: seq<Province>, p: Province, i: int)
    requires 0 <= i < |records|
    requires LastWithColor(records + [p], i)
    ensures LastWithColor(records, i) && p.color != records[i].color
  {
    var rs := records + [p];
    assert rs[|records|] == p && rs[i] == records[i];
    forall j | i < j < |records|
      ensures records[j].color != records[i].color
    {
      assert rs[j] == records[j];
    }
  }

  /** Storing one more record keeps the id dictionary indexed. */
  lemma StoreKeepsIds(records: seq<Province>, provinces: map<int, Province>, p: Province)
    requires Ids(records) <= provinces.Keys
    requires forall i :: 0 <= i < |records| && LastWithId(records, i) ==> provinces[records[i].id] == records[i]
    ensures Ids(records + [p]) <= provinces[p.id := p].Keys
    ensures forall i :: 0 <= i < |records + [p]| && LastWithId(records + [p], i) ==>
              provinces[p.id := p][(records + [p])[i].id] == (records + [p])[i]
  {
    var rs := records + [p];
    IdsAppend(records, p);
    forall i | 0 <= i < |rs| && LastWithId(rs, i)
      ensures provinces[p.id := p][rs[i].id] == rs[i]
    {
      if i < |records| {
        LastWithIdAppend(records, p, i);
        assert rs[i] == records[i];
      }
    }
  }

  /** Storing one more record keeps the colour dictionary indexed. */
  lemma StoreKeepsColors(records: seq<Province>, colorToId: map<Rgb, int>, p: Province)
    requires Colors(records) <= colorToId.Keys
    requires forall i :: 0 <= i < |records| && LastWithColor(records, i) ==> colorToId[records[i].color] == records[i].id
    ensures Colors(records + [p]) <= colorToId[p.color := p.id].Keys
    ensures forall i :: 0 <= i < |records + [p]| && LastWithColor(records + [p], i) ==>
              colorToId[p.color := p.id][(records + [p])[i].color] == (records + [p])[i].id
  {
    var rs := records + [p];
    IdsAppend(records, p);
    forall i | 0 <= i < |rs| && LastWithColor(rs, i)
      ensures colorToId[p.color := p.id][rs[i].color] == rs[i].id
    {
      if i < |records| {
        LastWithColorAppend(records, p, i);
        assert rs[i] == records[i];
      }
    }
  }

  /** Storing one more record keeps the dictionaries indexed. */
  lemma StoreKeepsIndexed(records: seq<Province>, provinces: map<int, Province>, colorToId: map<Rgb, int>, p: Province)
    requires Indexed(records, provinces, colorToId)
    ensures Indexed(records + [p], provinces[p.id := p], colorToId[p.color := p.id])
  {
    IdsAppend(records, p);
    StoreKeepsIds(records, provinces, p);
    StoreKeepsColors(records, colorToId, p);
  }

  /** The definition lines after the header. */
  function Body(lines: seq<string>): seq<string> {
    if |lines| == 0 then [] else lines[1..]
  }

  /** `f` applied to every element, all results together, or a failure when
      some element fails. */
  function CollectMap<A, T>(f: A -> Result<T>, xs: seq<A>): (r: Result<seq<T>>)
    ensures r.Failure? <==> exists i :: 0 <= i < |xs| && f(xs[i]).Failure?
    ensures r.Success? ==> |r.value| == |xs| && forall i :: 0 <= i < |xs| ==> r.value[i] == f(xs[i]).value
    decreases |xs|
  {
    if |xs| == 0 then Success([])
    else
      var front := xs[..|xs| - 1];
      assert forall i :: 0 <= i < |front| ==> front[i] == xs[i];
      match CollectMap(f, front)
      case Failure(e) => Failure(e)
      case Success(vs) =>
        match f(xs[|xs| - 1])
        case Failure(e) => Failure(e)
        case Success(v) => Success(vs + [v])
  }

  /** One more element either fails the whole or appends its value. */
  lemma CollectMapSnoc<A, T>(f: A -> Result<T>, xs: seq<A>, i: int)
    requires 0 <= i < |xs|
    requires CollectMap(f, xs[..i]).Success?
    ensures CollectMap(f, xs[..i + 1]).Success? <==> f(xs[i]).Success?
    ensures f(xs[i]).Success? ==> CollectMap(f, xs[..i + 1]).value == CollectMap(f, xs[..i]).value + [f(xs[i]).value]
  {
    assert xs[..i + 1][..i] == xs[..i];
  }

  /** The records of all definition lines, or the failure of one of them. */
  function ParseBody(lines: seq<string>): Result<seq<Province>> {
    CollectMap(ParseLine, Body(lines))
  }

  /** Parsing the body fails exactly when some definition line has fewer than
      eight fields. */
  lemma ParseBodyFails(lines: seq<string>)
    ensures ParseBody(lines).Failure? <==>
              exists i :: 1 <= i < |lines| && |Split(lines[i], ';')| < 8
  {
    var body := Body(lines);
    if ParseBody(lines).Failure? {
      var i :| 0 <= i < |body| && ParseLine(body[i]).Failure?;
      assert body[i] == lines[i + 1];
    }
    if i :| 1 <= i < |lines| && |Split(lines[i], ';')| < 8 {
      assert body[i - 1] == lines[i];
      assert ParseLine(body[i - 1]).Failure?;
    }
  }

  /** When the body parses, record `i - 1` is line `i` parsed. */
  lemma ParseBodyRecords(lines: seq<string>, i: int)
    requires ParseBody(lines).Success?
    requires 1 <= i < |lines|
    ensures |ParseBody(lines).value| == |lines| - 1
    ensures ParseLine(lines[i]).Success?
    ensures ParseBody(lines).value[i - 1] == ParseLine(lines[i]).value
  {
    var body := Body(lines);
    assert body[i - 1] == lines[i];
  }

  /** A freshly parsed record has no adjacencies. */
  lemma ParseBodyBare(lines: seq<string>)
    requires ParseBody(lines).Success?
    ensures forall i :: 0 <= i < |ParseBody(lines).value| ==> ParseBody(lines).value[i].adjacencies == {}
  {
    forall i | 0 <= i < |ParseBody(lines).value|
      ensures ParseBody(lines).value[i].adjacencies == {}
    {
      ParseBodyRecords(lines, i + 1);
    }
  }

  /** `ParseProvinceScv`: line 0 is a header and is skipped; every later line
      is parsed and stored under its id and its colour, a later line replacing
      an earlier one. The first line that fails stops the parse. */
  method ParseDefinitions(lines: seq<string>) returns (r: Result<(map<int, Province>, map<Rgb, int>)>)
    ensures r.Failure? <==> ParseBody(lines).Failure?
    ensures r.Failure? ==> r.error == IndexOutOfRange
    ensures r.Success? ==> Indexed(ParseBody(lines).value, r.value.0, r.value.1)
    ensures r.Success? ==> r.value == (ProvinceIndex(ParseBody(lines).value), ColorIndex(ParseBody(lines).value))
  {
    var provinces: map<int, Province> := map[];
    var colorToId: map<Rgb, int> := map[];
    var body := Body(lines);
    ghost var rs: seq<Province> := [];
    var i := 0;
    while i < |body|
      invariant 0 <= i <= |body|
      invariant CollectMap(ParseLine, body[..i]) == Success(rs)
      invariant Indexed(rs, provinces, colorToId)
      invariant provinces == ProvinceIndex(rs) && colorToId == ColorIndex(rs)
    {
      var p := ParseLine(body[i]);
      CollectMapSnoc(ParseLine, body, i);
      if p.Failure? {
        PrefixFailure(ParseLine, body, i + 1);
        return Failure(p.error);
      }
      StoreKeepsIndexed(rs, provinces, colorToId, p.value);
      IndexSnoc(rs, p.value);
      provinces := provinces[p.value.id := p.value];
      colorToId := colorToId[p.value.color := p.value.id];
      rs := rs + [p.value];
      i := i + 1;
    }
    assert body[..i] == body;
    return Success((provinces, colorToId));
  }

  lemma IndexSnoc(rs: seq<Province>, p: Province)
    ensures ProvinceIndex(rs + [p]) == ProvinceIndex(rs)[p.id := p]
    ensures ColorIndex(rs + [p]) == ColorIndex(rs)[p.color := p.id]
  {
    assert (rs + [p])[..|rs|] == rs;
  }

  /** A failing prefix makes the whole fail. */
  lemma PrefixFailure<A, T>(f: A -> Result<T>, xs: seq<A>, n: int)
    requires 0 <= n <= |xs|
    requires CollectMap(f, xs[..n]).Failure?
    ensures CollectMap(f, xs).Failure?
  {
    var i :| 0 <= i < n && f(xs[..n][i]).Failure?;
    assert xs[..n][i] == xs[i];
  }
}
