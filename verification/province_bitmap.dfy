/** The second half of `ProvinceParser`: every pair of horizontally or
    vertically touching pixels whose colours belong to different provinces
    links those provinces, in both directions. A pixel whose colour no
    definition line names makes the scan fail, and `TryParse` then reports
    failure with no provinces at all. */
module ProvinceBitmap {
  import opened Wrappers
  import opened RgbColor
  import opened ProvinceParser

  /** The pixels of the provinces bitmap, row by row, already decoded from the
      blue-green-red byte order of the file. A bitmap's rows all have the same
      width. */
  type Image = seq<seq<Rgb>>

  /** Position `(i2, j2)` is the right or lower neighbour of `(i, j)`. */
  ghost predicate Neighbours(img: Image, i: int, j: int, i2: int, j2: int) {
    && 0 <= i < |img| && 0 <= j < |img[i]|
    && 0 <= i2 < |img| && 0 <= j2 < |img[i2]|
    && ((i2 == i && j2 == j + 1) || (i2 == i + 1 && j2 == j))
  }

  /** Every pixel's colour belongs to a province. */
  ghost predicate Known(img: Image, colorToId: map<Rgb, int>) {
    forall i, j :: 0 <= i < |img| && 0 <= j < |img[i]| ==> img[i][j] in colorToId
  }

  /** Some pixel of province `a` has a right or lower neighbour of the
      different province `b`. */
  ghost predicate Touching(img: Image, colorToId: map<Rgb, int>, a: int, b: int)
    requires Known(img, colorToId)
  {
    exists i, j, i2, j2 :: Neighbours(img, i, j, i2, j2) && a != b
                           && colorToId[img[i][j]] == a && colorToId[img[i2][j2]] == b
  }

  /** The provinces that touch province `k` on either side. */
  ghost function Borders(img: Image, colorToId: map<Rgb, int>, k: int): set<int>
    requires Known(img, colorToId)
  {
    set b | b in colorToId.Values && (Touching(img, colorToId, k, b) || Touching(img, colorToId, b, k))
  }

  /** The edge pairs the scan records at pixel `(i, j)`: one towards the right
      neighbour and one towards the lower neighbour, each only when the
      neighbour exists, its colour is known and its province differs. */
  function PairsAt(img: Image, colorToId: map<Rgb, int>, i: int, j: int): set<(int, int)>
    requires 0 <= i < |img| && 0 <= j < |img[i]|
  {
    if img[i][j] !in colorToId then {}
    else
      var here := colorToId[img[i][j]];
      var right :=
        if j + 1 < |img[i]| && img[i][j + 1] in colorToId && colorToId[img[i][j + 1]] != here
        then {(here, colorToId[img[i][j + 1]])} else {};
      var down :=
        if i + 1 < |img| && j < |img[i + 1]| && img[i + 1][j] in colorToId && colorToId[img[i + 1][j]] != here
        then {(here, colorToId[img[i + 1][j]])} else {};
      right + down
  }

  /** The pairs recorded at the first `n` pixels of row `i`. */
  function RowPairs(img: Image, colorToId: map<Rgb, int>, i: int, n: int): set<(int, int)>
    requires 0 <= i < |img| && 0 <= n <= |img[i]|
    decreases n
  {
    if n == 0 then {} else RowPairs(img, colorToId, i, n - 1) + PairsAt(img, colorToId, i, n - 1)
  }

  /** The pairs recorded in the first `m` rows. */
  function GridPairs(img: Image, colorToId: map<Rgb, int>, m: int): set<(int, int)>
    requires 0 <= m <= |img|
    decreases m
  {
    if m == 0 then {} else GridPairs(img, colorToId, m - 1) + RowPairs(img, colorToId, m - 1, |img[m - 1]|)
  }

  /** A pair recorded at a pixel is a touching pair with that pixel first. */
  lemma PairsAtMeaning(img: Image, colorToId: map<Rgb, int>, i: int, j: int, a: int, b: int)
    requires Known(img, colorToId)
    requires 0 <= i < |img| && 0 <= j < |img[i]|
    ensures (a, b) in PairsAt(img, colorToId, i, j) <==>
              exists i2, j2 :: Neighbours(img, i, j, i2, j2) && a != b
                               && colorToId[img[i][j]] == a && colorToId[img[i2][j2]] == b
  {
    if (a, b) in PairsAt(img, colorToId, i, j) {
      if j + 1 < |img[i]| && (a, b) == (colorToId[img[i][j]], colorToId[img[i][j + 1]]) {
        assert Neighbours(img, i, j, i, j + 1);
      } else {
        assert Neighbours(img, i, j, i + 1, j);
      }
    }
  }

  lemma {:induction false} RowPairsMember(img: Image, colorToId: map<Rgb, int>, i: int, n: int, p: (int, int))
    requires 0 <= i < |img| && 0 <= n <= |img[i]|
    ensures p in RowPairs(img, colorToId, i, n) <==> exists j :: 0 <= j < n && p in PairsAt(img, colorToId, i, j)
    decreases n
  {
    if n > 0 {
      RowPairsMember(img, colorToId, i, n - 1, p);
    }
  }

  lemma {:induction false} GridPairsMember(img: Image, colorToId: map<Rgb, int>, m: int, p: (int, int))
    requires 0 <= m <= |img|
    ensures p in GridPairs(img, colorToId, m) <==>
              exists i, j :: 0 <= i < m && 0 <= j < |img[i]| && p in PairsAt(img, colorToId, i, j)
    decreases m
  {
    if m > 0 {
      GridPairsMember(img, colorToId, m - 1, p);
      RowPairsMember(img, colorToId, m - 1, |img[m - 1]|, p);
    }
  }

  /** The pairs of the whole scan are exactly the touching pairs. */
  lemma GridPairsAreTouching(img: Image, colorToId: map<Rgb, int>, a: int, b: int)
    requires Known(img, colorToId)
    ensures (a, b) in GridPairs(img, colorToId, |img|) <==> Touching(img, colorToId, a, b)
  {
    GridPairsMember(img, colorToId, |img|, (a, b));
    if (a, b) in GridPairs(img, colorToId, |img|) {
      var i, j :| 0 <= i < |img| && 0 <= j < |img[i]| && (a, b) in PairsAt(img, colorToId, i, j);
      PairsAtMeaning(img, colorToId, i, j, a, b);
    }
    if Touching(img, colorToId, a, b) {
      var i, j, i2, j2 :| Neighbours(img, i, j, i2, j2) && a != b
                          && colorToId[img[i][j]] == a && colorToId[img[i2][j2]] == b;
      PairsAtMeaning(img, colorToId, i, j, a, b);
    }
  }

  /** The parallel scan of the bitmap: every pixel's province is looked up,
      and so are those of its right and lower neighbours; an unknown colour
      fails the scan. The rows are scanned in parallel in the source; the
      pairs form a set, so the order does not matter. */
  method ScanEdges(img: Image, colorToId: map<Rgb, int>) returns (r: Result<set<(int, int)>>)
    ensures r.Failure? <==> !Known(img, colorToId)
    ensures r.Failure? ==> r.error == KeyNotFound
    ensures r.Success? ==> forall a, b :: (a, b) in r.value <==> Touching(img, colorToId, a, b)
  {
    var pairs: set<(int, int)> := {};
    var i := 0;
    while i < |img|
      invariant 0 <= i <= |img|
      invariant pairs == GridPairs(img, colorToId, i)
      invariant forall i1, j1 :: 0 <= i1 < i && 0 <= j1 < |img[i1]| ==> img[i1][j1] in colorToId
    {
      var j := 0;
      while j < |img[i]|
        invariant 0 <= j <= |img[i]|
        invariant pairs == GridPairs(img, colorToId, i) + RowPairs(img, colorToId, i, j)
        invariant forall j1 :: 0 <= j1 < j ==> img[i][j1] in colorToId
      {
        var found := PixelPairs(img, colorToId, i, j);
        if found.Failure? {
          return Failure(KeyNotFound);
        }
        pairs := pairs + found.value;
        j := j + 1;
      }
      i := i + 1;
    }
    forall a, b
      ensures (a, b) in pairs <==> Touching(img, colorToId, a, b)
    {
      GridPairsAreTouching(img, colorToId, a, b);
    }
    return Success(pairs);
  }

  /** The lookups at one pixel: its own colour, then those of its right and
      lower neighbours where they exist. */
  method PixelPairs(img: Image, colorToId: map<Rgb, int>, i: int, j: int) returns (r: Result<set<(int, int)>>)
    requires 0 <= i < |img| && 0 <= j < |img[i]|
    ensures r.Failure? <==>
              || img[i][j] !in colorToId
              || (j + 1 < |img[i]| && img[i][j + 1] !in colorToId)
              || (i + 1 < |img| && j < |img[i + 1]| && img[i + 1][j] !in colorToId)
    ensures r.Success? ==> r.value == PairsAt(img, colorToId, i, j)
  {
    if img[i][j] !in colorToId {
      return Failure(KeyNotFound);
    }
    var here := colorToId[img[i][j]];
    var found: set<(int, int)> := {};
    if j + 1 < |img[i]| {
      if img[i][j + 1] !in colorToId {
        return Failure(KeyNotFound);
      }
      var right := colorToId[img[i][j + 1]];
      if here != right {
        found := found + {(here, right)};
      }
    }
    if i + 1 < |img| && j < |img[i + 1]| {
      if img[i + 1][j] !in colorToId {
        return Failure(KeyNotFound);
      }
      var down := colorToId[img[i + 1][j]];
      if here != down {
        found := found + {(here, down)};
      }
    }
    return Success(found);
  }

  /** The provinces a set of pairs links `k` to, in either direction. */
  function Partners(pairs: set<(int, int)>, k: int): set<int> {
    (set p | p in pairs && p.0 == k :: p.1) + (set p | p in pairs && p.1 == k :: p.0)
  }

  /** `provinces` with the partners of every province added to its
      adjacencies. */
  ghost predicate Linked(provinces: map<int, Province>, pairs: set<(int, int)>, r: map<int, Province>) {
    && r.Keys == provinces.Keys
    && forall k :: k in r ==>
         r[k] == provinces[k].(adjacencies := provinces[k].adjacencies + Partners(pairs, k))
  }

  lemma PartnersAdd(pairs: set<(int, int)>, p: (int, int), k: int)
    ensures Partners(pairs + {p}, k) ==
              Partners(pairs, k) + (if p.0 == k then {p.1} else {}) + (if p.1 == k then {p.0} else {})
  {
  }

  lemma LinkOne(provinces: map<int, Province>, done: set<(int, int)>, acc: map<int, Province>, p: (int, int))
    requires Linked(provinces, done, acc)
    requires p.0 in acc && p.1 in acc
    ensures var once := acc[p.0 := acc[p.0].(adjacencies := acc[p.0].adjacencies + {p.1})];
            Linked(provinces, done + {p}, once[p.1 := once[p.1].(adjacencies := once[p.1].adjacencies + {p.0})])
  {
    forall k | k in acc {
      PartnersAdd(done, p, k);
    }
  }

  /** The final loop of `ParseProvinceBmp`: every pair adds each end to the
      other's adjacencies; a pair naming an id without a province fails. */
  method AddEdges(provinces: map<int, Province>, pairs: set<(int, int)>) returns (r: Result<map<int, Province>>)
    ensures r.Failure? <==> exists p :: p in pairs && (p.0 !in provinces || p.1 !in provinces)
    ensures r.Failure? ==> r.error == KeyNotFound
    ensures r.Success? ==> Linked(provinces, pairs, r.value)
  {
    var acc := provinces;
    var rest := pairs;
    while rest != {}
      invariant rest <= pairs
      invariant forall p :: p in pairs - rest ==> p.0 in provinces && p.1 in provinces
      invariant Linked(provinces, pairs - rest, acc)
      decreases |rest|
    {
      var p :| p in rest;
      if p.0 !in acc || p.1 !in acc {
        return Failure(KeyNotFound);
      }
      LinkOne(provinces, pairs - rest, acc, p);
      acc := acc[p.0 := acc[p.0].(adjacencies := acc[p.0].adjacencies + {p.1})];
      acc := acc[p.1 := acc[p.1].(adjacencies := acc[p.1].adjacencies + {p.0})];
      assert pairs - (rest - {p}) == (pairs - rest) + {p};
      rest := rest - {p};
    }
    assert pairs - rest == pairs;
    return Success(acc);
  }

  /** Under a known bitmap the partners of a province in the touching pairs
      are its bordering provinces. */
  lemma PartnersAreBorders(img: Image, colorToId: map<Rgb, int>, pairs: set<(int, int)>, k: int)
    requires Known(img, colorToId)
    requires forall a, b :: (a, b) in pairs <==> Touching(img, colorToId, a, b)
    ensures Partners(pairs, k) == Borders(img, colorToId, k)
  {
    forall b | b in Partners(pairs, k)
      ensures b in Borders(img, colorToId, k)
    {
      var i, j, i2, j2 :| Neighbours(img, i, j, i2, j2) && (k, b) != (b, k) &&
        ((colorToId[img[i][j]] == k && colorToId[img[i2][j2]] == b) ||
         (colorToId[img[i][j]] == b && colorToId[img[i2][j2]] == k));
      assert colorToId[img[i][j]] in colorToId.Values && colorToId[img[i2][j2]] in colorToId.Values;
    }
    forall b | b in Borders(img, colorToId, k)
      ensures b in Partners(pairs, k)
    {
      if Touching(img, colorToId, k, b) {
        assert (k, b) in pairs;
      } else {
        assert (b, k) in pairs;
      }
    }
  }

  /** `TryParse`: the definition lines, then the bitmap. Any failure on the
      way yields `false` and no provinces; otherwise every province carries
      the ids of the provinces bordering it in the bitmap. */
  method TryParse(lines: seq<string>, img: Image) returns (ok: bool, provinces: map<int, Province>)
    ensures ok <==> ParseBody(lines).Success? && Known(img, ColorIndex(ParseBody(lines).value))
    ensures !ok ==> provinces == map[]
    ensures ok ==> provinces.Keys == ProvinceIndex(ParseBody(lines).value).Keys
    ensures ok ==> forall k :: k in provinces ==>
              provinces[k] == ProvinceIndex(ParseBody(lines).value)[k].(
                adjacencies := Borders(img, ColorIndex(ParseBody(lines).value), k))
    ensures ok ==> forall a, b :: a in provinces && b in provinces[a].adjacencies ==>
              b in provinces && a in provinces[b].adjacencies
  {
    var defs := ParseDefinitions(lines);
    if defs.Failure? {
      return false, map[];
    }
    var (byId, colorToId) := defs.value;
    var scan := ScanEdges(img, colorToId);
    if scan.Failure? {
      return false, map[];
    }
    EdgesHaveProvinces(ParseBody(lines).value, byId, colorToId, img, scan.value);
    var linked := AddEdges(byId, scan.value);
    if linked.Failure? {
      assert false;
      return false, map[];
    }
    ParseBodyBare(lines);
    IndexBare(ParseBody(lines).value);
    LinkedAreBorders(byId, colorToId, img, scan.value, linked.value);
    BordersSymmetric(ParseBody(lines).value, img);
    return true, linked.value;
  }

  /** Every id the colour dictionary holds is an id of the province
      dictionary. */
  lemma {:induction false} ColorIdsKnown(records: seq<Province>)
    ensures forall c :: c in ColorIndex(records) ==> ColorIndex(records)[c] in ProvinceIndex(records)
    decreases |records|
  {
    if |records| > 0 {
      ColorIdsKnown(records[..|records| - 1]);
    }
  }

  /** Adjacency from the bitmap is symmetric, and every neighbour is a
      recorded province. */
  lemma BordersSymmetric(records: seq<Province>, img: Image)
    requires Known(img, ColorIndex(records))
    ensures forall a, b :: b in Borders(img, ColorIndex(records), a) ==>
              a in Borders(img, ColorIndex(records), b) && b in ProvinceIndex(records)
  {
    var ci := ColorIndex(records);
    ColorIdsKnown(records);
    forall a, b | b in Borders(img, ci, a)
      ensures a in Borders(img, ci, b) && b in ProvinceIndex(records)
    {
      if Touching(img, ci, a, b) {
        var i, j, i2, j2 :| Neighbours(img, i, j, i2, j2) && a != b && ci[img[i][j]] == a && ci[img[i2][j2]] == b;
        assert a in ci.Values;
      } else {
        var i, j, i2, j2 :| Neighbours(img, i, j, i2, j2) && b != a && ci[img[i][j]] == b && ci[img[i2][j2]] == a;
        assert a in ci.Values;
      }
    }
  }

  /** Both ends of every touching pair have a province. */
  lemma EdgesHaveProvinces(records: seq<Province>, byId: map<int, Province>, colorToId: map<Rgb, int>,
                           img: Image, pairs: set<(int, int)>)
    requires Indexed(records, byId, colorToId)
    requires Known(img, colorToId)
    requires forall a, b :: (a, b) in pairs <==> Touching(img, colorToId, a, b)
    ensures forall p :: p in pairs ==> p.0 in byId && p.1 in byId
  {
    forall p | p in pairs
      ensures p.0 in byId && p.1 in byId
    {
      assert Touching(img, colorToId, p.0, p.1);
    }
  }

  /** Linking the touching pairs into provinces without adjacencies gives
      every province its bordering provinces. */
  lemma LinkedAreBorders(byId: map<int, Province>, colorToId: map<Rgb, int>, img: Image,
                         pairs: set<(int, int)>, linked: map<int, Province>)
    requires Known(img, colorToId)
    requires forall a, b :: (a, b) in pairs <==> Touching(img, colorToId, a, b)
    requires Linked(byId, pairs, linked)
    requires forall k :: k in byId ==> byId[k].adjacencies == {}
    ensures forall k :: k in linked ==> linked[k] == byId[k].(adjacencies := Borders(img, colorToId, k))
  {
    forall k | k in linked
      ensures linked[k] == byId[k].(adjacencies := Borders(img, colorToId, k))
    {
      PartnersAreBorders(img, colorToId, pairs, k);
    }
  }

  /** Storing records without adjacencies gives provinces without
      adjacencies. */
  lemma {:induction false} IndexBare(records: seq<Province>)
    requires forall i :: 0 <= i < |records| ==> records[i].adjacencies == {}
    ensures forall k :: k in ProvinceIndex(records) ==> ProvinceIndex(records)[k].adjacencies == {}
    decreases |records|
  {
    if |records| > 0 {
      IndexBare(records[..|records| - 1]);
    }
  }
}
