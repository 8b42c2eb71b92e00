/**
 * The stop-ranking part of scripts/fetch_guwahati_bus_stops.py.
 *
 * The script asks OpenStreetMap's Overpass service for the bus stations,
 * stops, platforms and stop positions of Guwahati, followed by the bare ids
 * of every node that belongs to a bus route. It separates those ids from the
 * full elements, turns each element with a position into a GeoJSON Point
 * feature (coordinates in [longitude, latitude] order, as section 3.1.1 of
 * RFC 7946 requires), scores it, and sorts the features by score, highest
 * first, then by name. A second list keeps the features scoring 4 or more.
 *
 * Latitudes and longitudes are passed through unchanged, so they are kept as
 * opaque values. A kept node (one with tags or a "lat") that is the first
 * with its (type, id) key and lacks "lat" or "lon" makes the script raise
 * KeyError; that is the Failure case of the results below. Id-only nodes
 * and nodes whose key was already seen never reach that lookup.
 */
module BusStops {
  import opened Wrappers
  import opened Sequences

  /** A latitude or longitude exactly as the response gave it. */
  datatype Coord = Coord(text: string)

  /** The "center" object Overpass adds to ways and relations; either key may be missing. */
  datatype Center = Center(lat: Option<Coord>, lon: Option<Coord>)

  /**
   * One entry of the response's "elements" list. Every field is optional,
   * as every key of the JSON object is: `kind` is the "type" key
   * ("node", "way", "relation").
   */
  datatype Element = Element(
    kind: Option<string>,
    id: Option<int>,
    tags: Option<map<string, string>>,
    lat: Option<Coord>,
    lon: Option<Coord>,
    center: Option<Center>)

  /** The exception `element_center` lets through: the missing key of a node. */
  datatype ScriptError = MissingKey(key: string)

  /** The five labels `classify` returns. */
  datatype Category = BusStation | BusStop | Platform | StopPosition | Other

  /** A GeoJSON Point feature and its "properties" object. */
  datatype Feature = Feature(
    coordinates: seq<Coord>,
    osmType: Option<string>,
    osmId: Option<int>,
    name: Option<string>,
    category: Category,
    importanceScore: int,
    tags: map<string, string>)

  /** `elem.get("tags", {})`. */
  function TagsOf(e: Element): map<string, string>
  {
    e.tags.GetOr(map[])
  }

  /** `tags.get(key)`. */
  function Get(tags: map<string, string>, key: string): Option<string>
  {
    if key in tags then Some(tags[key]) else None
  }

  predicate IsNode(e: Element)
  {
    e.kind == Some("node")
  }

  // ---------------------------------------------------------------------------
  // element_center

  /**
   * `element_center`: a node's own position, or the "center" of any other
   * element when it holds both keys; `Success(None)` for an element with no
   * position, and KeyError for a node missing "lat" or "lon".
   */
  function ElementCenter(e: Element): (r: Result<Option<(Coord, Coord)>, ScriptError>)
    ensures r.Failure? <==> IsNode(e) && (e.lat.None? || e.lon.None?)
    ensures IsNode(e) && r.Success? ==> r.value == Some((e.lat.value, e.lon.value))
    ensures !IsNode(e) && r.Success? && r.value.Some? ==>
      && e.center.Some? && e.center.value.lat.Some? && e.center.value.lon.Some?
      && r.value.value == (e.center.value.lat.value, e.center.value.lon.value)
    ensures !IsNode(e) ==> (r == Success(None) <==> e.center.None? || e.center.value.lat.None? || e.center.value.lon.None?)
  {
    if IsNode(e) then
      if e.lat.None? then Failure(MissingKey("lat"))
      else if e.lon.None? then Failure(MissingKey("lon"))
      else Success(Some((e.lat.value, e.lon.value)))
    else
      match e.center
      case Some(Center(Some(lat), Some(lon))) => Success(Some((lat, lon)))
      case _ => Success(None)
  }

  /** The element has a position, so `build_geojson` makes a feature of it. */
  predicate Located(e: Element)
  {
    ElementCenter(e).Success? && ElementCenter(e).value.Some?
  }

  // ---------------------------------------------------------------------------
  // classify

  /** The label text `classify` returns for each category. */
  function Label(c: Category): (r: string)
    ensures r in {"bus_station", "bus_stop", "platform", "stop_position", "other"}
  {
    match c
    case BusStation => "bus_station"
    case BusStop => "bus_stop"
    case Platform => "platform"
    case StopPosition => "stop_position"
    case Other => "other"
  }

  /** Different categories have different labels. */
  lemma {:induction false} LabelInjective(c: Category, d: Category)
    requires c != d
    ensures Label(c) != Label(d)
  {
  }

  /** One test of `classify`: tag `key` has value `value`. */
  datatype Rule = Rule(key: string, value: string, category: Category)

  predicate Matches(tags: map<string, string>, rule: Rule)
  {
    Get(tags, rule.key) == Some(rule.value)
  }

  /** The tests of `classify`, highest priority first. */
  const Priority: seq<Rule> := [
    Rule("amenity", "bus_station", BusStation),
    Rule("highway", "bus_stop", BusStop),
    Rule("public_transport", "platform", Platform),
    Rule("public_transport", "stop_position", StopPosition)
  ]

  /** The category of the first rule that matches, or Other when none does. */
  function FirstMatch(tags: map<string, string>, rules: seq<Rule>): Category
  {
    if rules == [] then Other
    else if Matches(tags, rules[0]) then rules[0].category
    else FirstMatch(tags, rules[1..])
  }

  /** The first matching rule decides, whatever later rules say. */
  lemma {:induction false} FirstMatchWins(tags: map<string, string>, rules: seq<Rule>, j: nat)
    requires j < |rules| && Matches(tags, rules[j])
    requires forall i :: 0 <= i < j ==> !Matches(tags, rules[i])
    ensures FirstMatch(tags, rules) == rules[j].category
  {
    if j > 0 {
      assert !Matches(tags, rules[0]);
      FirstMatchWins(tags, rules[1..], j - 1);
    }
  }

  /** With no matching rule the result is Other. */
  lemma {:induction false} FirstMatchNone(tags: map<string, string>, rules: seq<Rule>)
    requires forall i :: 0 <= i < |rules| ==> !Matches(tags, rules[i])
    ensures FirstMatch(tags, rules) == Other
  {
    if rules != [] {
      assert !Matches(tags, rules[0]);
      FirstMatchNone(tags, rules[1..]);
    }
  }

  /** `classify`: the tests in order, the first that holds giving the label. */
  function Classify(e: Element): (r: Category)
    ensures r == BusStation <==> Get(TagsOf(e), "amenity") == Some("bus_station")
    ensures r == BusStop ==> Get(TagsOf(e), "highway") == Some("bus_stop")
    ensures r == Platform ==> Get(TagsOf(e), "public_transport") == Some("platform")
    ensures r == StopPosition ==> Get(TagsOf(e), "public_transport") == Some("stop_position")
  {
    var tags := TagsOf(e);
    if Get(tags, "amenity") == Some("bus_station") then BusStation
    else if Get(tags, "highway") == Some("bus_stop") then BusStop
    else if Get(tags, "public_transport") == Some("platform") then Platform
    else if Get(tags, "public_transport") == Some("stop_position") then StopPosition
    else Other
  }

  /** `classify` is the first-match rule over `Priority`: a higher test beats every lower one. */
  lemma {:induction false} ClassifyByPriority(e: Element)
    ensures Classify(e) == FirstMatch(TagsOf(e), Priority)
  {
    var tags := TagsOf(e);
    if Matches(tags, Priority[0]) {
      FirstMatchWins(tags, Priority, 0);
    } else if Matches(tags, Priority[1]) {
      FirstMatchWins(tags, Priority, 1);
    } else if Matches(tags, Priority[2]) {
      FirstMatchWins(tags, Priority, 2);
    } else if Matches(tags, Priority[3]) {
      FirstMatchWins(tags, Priority, 3);
    } else {
      FirstMatchNone(tags, Priority);
    }
  }

  /**
   * The priority of `classify`: the first test of `Priority` that holds gives
   * the category, whichever later tests also hold; with none, Other.
   */
  lemma {:induction false} ClassifyPriority(e: Element, j: nat)
    requires j < |Priority| && Matches(TagsOf(e), Priority[j])
    requires forall i :: 0 <= i < j ==> !Matches(TagsOf(e), Priority[i])
    ensures Classify(e) == Priority[j].category
  {
    ClassifyByPriority(e);
    FirstMatchWins(TagsOf(e), Priority, j);
  }

  lemma {:induction false} ClassifyOther(e: Element)
    ensures Classify(e) == Other <==> forall i :: 0 <= i < |Priority| ==> !Matches(TagsOf(e), Priority[i])
  {
    ClassifyByPriority(e);
    if forall i :: 0 <= i < |Priority| ==> !Matches(TagsOf(e), Priority[i]) {
      FirstMatchNone(TagsOf(e), Priority);
    }
  }

  // ---------------------------------------------------------------------------
  // compute_importance

  /** The +2 boost: a node whose id is among the route members. */
  predicate OnRoute(e: Element, routeIds: set<int>)
  {
    IsNode(e) && e.id.Some? && e.id.value in routeIds
  }

  /**
   * `compute_importance`: 5, 2 or 1 for the kind, 1 for a shelter, 1 for a
   * name, 2 for a node on a bus route, added up one step at a time.
   */
  function ComputeImportance(e: Element, routeIds: set<int>): (score: int)
    ensures 0 <= score <= 9
    ensures Classify(e) == Other ==> score <= 4
    ensures OnRoute(e, routeIds) ==> score >= 2
  {
    var kind := Classify(e);
    var tags := TagsOf(e);
    var s0 := 0;
    var s1 := if kind == BusStation then s0 + 5 else s0;
    var s2 := if kind == BusStop then s1 + 2 else s1;
    var s3 := if kind == Platform || kind == StopPosition then s2 + 1 else s2;
    var s4 := if Get(tags, "shelter") == Some("yes") then s3 + 1 else s3;
    var s5 := if "name" in tags then s4 + 1 else s4;
    if OnRoute(e, routeIds) then s5 + 2 else s5
  }

  /** The kind bonus alone: exactly one of 5, 2, 1 or 0 applies. */
  function KindBonus(c: Category): nat
  {
    match c
    case BusStation => 5
    case BusStop => 2
    case Platform => 1
    case StopPosition => 1
    case Other => 0
  }

  /**
   * The score splits into independent parts: the kind bonus, one point each
   * for a shelter and a name, and two for route membership, which is the
   * only part that depends on the route set.
   */
  lemma {:induction false} ImportanceParts(e: Element, routeIds: set<int>)
    ensures var tags := TagsOf(e);
      ComputeImportance(e, routeIds) ==
        KindBonus(Classify(e))
        + (if Get(tags, "shelter") == Some("yes") then 1 else 0)
        + (if "name" in tags then 1 else 0)
        + (if OnRoute(e, routeIds) then 2 else 0)
  {
  }

  /** Only a node gets the route boost; a way or relation scores the same for every route set. */
  lemma {:induction false} RouteBoostNodesOnly(e: Element, routeIds: set<int>, others: set<int>)
    requires !IsNode(e)
    ensures ComputeImportance(e, routeIds) == ComputeImportance(e, others)
  {
  }

  /** A bus station always reaches the top subset; an element of no known kind needs the route boost. */
  lemma {:induction false} ImportanceThresholds(e: Element, routeIds: set<int>)
    ensures Classify(e) == BusStation ==> ComputeImportance(e, routeIds) >= 5
    ensures Classify(e) == Other && !OnRoute(e, routeIds) ==> ComputeImportance(e, routeIds) <= 2
  {
  }

  // ---------------------------------------------------------------------------
  // build_geojson

  type Key = (Option<string>, Option<int>)

  /** `(e.get("type"), e.get("id"))`, the key of the `seen` set. */
  function KeyOf(e: Element): Key
  {
    (e.kind, e.id)
  }

  function FeatureKey(f: Feature): Key
  {
    (f.osmType, f.osmId)
  }

  /** The feature `build_geojson` makes of a located element. */
  function FeatureOf(e: Element, routeIds: set<int>): (f: Feature)
    requires Located(e)
    ensures FeatureKey(f) == KeyOf(e)
    ensures f.category == Classify(e) && f.importanceScore == ComputeImportance(e, routeIds)
    ensures f.name == Get(TagsOf(e), "name")
    ensures var (lat, lon) := ElementCenter(e).value.value; f.coordinates == [lon, lat]
  {
    var (lat, lon) := ElementCenter(e).value.value;
    Feature([lon, lat], e.kind, e.id, Get(TagsOf(e), "name"), Classify(e), ComputeImportance(e, routeIds), TagsOf(e))
  }

  /** Element `i` is the first with its key, and its key was not seen before the list. */
  predicate Fresh(es: seq<Element>, seen: set<Key>, i: int)
    requires 0 <= i < |es|
  {
    KeyOf(es[i]) !in seen && forall j :: 0 <= j < i ==> KeyOf(es[j]) != KeyOf(es[i])
  }

  /** `fs` put in front of the features of a result. */
  function Then(fs: seq<Feature>, r: Result<seq<Feature>, ScriptError>): Result<seq<Feature>, ScriptError>
  {
    match r
    case Success(rest) => Success(fs + rest)
    case Failure(err) => Failure(err)
  }

  lemma {:induction false} ThenEmpty(r: Result<seq<Feature>, ScriptError>)
    ensures Then([], r) == r
  {
    if r.Success? {
      assert [] + r.value == r.value;
    }
  }

  lemma {:induction false} ThenThen(a: seq<Feature>, b: seq<Feature>, r: Result<seq<Feature>, ScriptError>)
    ensures Then(a, Then(b, r)) == Then(a + b, r)
  {
    if r.Success? {
      assert a + (b + r.value) == (a + b) + r.value;
    }
  }

  /**
   * The features the loop of `build_geojson` collects from `es`, given the
   * keys already in `seen`, before sorting.
   */
  function Gather(es: seq<Element>, seen: set<Key>, routeIds: set<int>): (r: Result<seq<Feature>, ScriptError>)
    ensures r.Success? ==> |r.value| <= |es|
    decreases |es|
  {
    if es == [] then Success([])
    else
      var e := es[0];
      if KeyOf(e) in seen then Gather(es[1..], seen, routeIds)
      else
        match ElementCenter(e)
        case Failure(err) => Failure(err)
        case Success(None) => Gather(es[1..], seen + {KeyOf(e)}, routeIds)
        case Success(Some(_)) => Then([FeatureOf(e, routeIds)], Gather(es[1..], seen + {KeyOf(e)}, routeIds))
  }

  /** Dropping the first element: what `Fresh` means for the rest of the list. */
  lemma {:induction false} FreshTail(es: seq<Element>, seen: set<Key>, i: int)
    requires 1 <= i < |es|
    ensures Fresh(es, seen, i) <==>
      Fresh(es[1..], if KeyOf(es[0]) in seen then seen else seen + {KeyOf(es[0])}, i - 1)
  {
    var seen' := if KeyOf(es[0]) in seen then seen else seen + {KeyOf(es[0])};
    if Fresh(es[1..], seen', i - 1) {
      forall j | 0 <= j < i
        ensures KeyOf(es[j]) != KeyOf(es[i])
      {
        if j > 0 {
          assert es[1..][j - 1] == es[j];
        }
      }
    }
    if Fresh(es, seen, i) {
      forall j | 0 <= j < i - 1
        ensures KeyOf(es[1..][j]) != KeyOf(es[1..][i - 1])
      {
        assert es[1..][j] == es[j + 1];
      }
    }
  }

  /** The loop fails exactly when it reaches a fresh node with no "lat" or "lon". */
  lemma {:induction false} GatherFails(es: seq<Element>, seen: set<Key>, routeIds: set<int>)
    ensures Gather(es, seen, routeIds).Failure? <==>
      exists i :: 0 <= i < |es| && Fresh(es, seen, i) && ElementCenter(es[i]).Failure?
    decreases |es|
  {
    if es != [] {
      var seen' := if KeyOf(es[0]) in seen then seen else seen + {KeyOf(es[0])};
      GatherFails(es[1..], seen', routeIds);
      forall i | 1 <= i < |es|
        ensures Fresh(es, seen, i) <==> Fresh(es[1..], seen', i - 1)
      {
        FreshTail(es, seen, i);
      }
      if Gather(es, seen, routeIds).Failure? {
        if KeyOf(es[0]) !in seen && ElementCenter(es[0]).Failure? {
          assert Fresh(es, seen, 0);
        } else {
          var i :| 0 <= i < |es[1..]| && Fresh(es[1..], seen', i) && ElementCenter(es[1..][i]).Failure?;
          assert es[1..][i] == es[i + 1];
        }
      }
      if exists i :: 0 <= i < |es| && Fresh(es, seen, i) && ElementCenter(es[i]).Failure? {
        var i :| 0 <= i < |es| && Fresh(es, seen, i) && ElementCenter(es[i]).Failure?;
        if i > 0 {
          assert es[1..][i - 1] == es[i];
        }
      }
    }
  }

  /**
   * What the loop collects: one feature per located element whose key is
   * fresh (the first occurrence wins), made from that element, and no two
   * features with the same key.
   */
  lemma {:induction false} GatherContents(es: seq<Element>, seen: set<Key>, routeIds: set<int>)
    requires Gather(es, seen, routeIds).Success?
    ensures var fs := Gather(es, seen, routeIds).value;
      && DistinctBy(fs, FeatureKey)
      && (forall k :: 0 <= k < |fs| ==> FeatureKey(fs[k]) !in seen)
      && (forall f :: f in fs <==>
            exists i :: 0 <= i < |es| && Fresh(es, seen, i) && Located(es[i]) && f == FeatureOf(es[i], routeIds))
    decreases |es|
  {
    var fs := Gather(es, seen, routeIds).value;
    if es != [] {
      var seen' := if KeyOf(es[0]) in seen then seen else seen + {KeyOf(es[0])};
      var rest := Gather(es[1..], seen', routeIds).value;
      GatherContents(es[1..], seen', routeIds);
      forall i | 1 <= i < |es|
        ensures Fresh(es, seen, i) <==> Fresh(es[1..], seen', i - 1)
      {
        FreshTail(es, seen, i);
      }
      var head := KeyOf(es[0]) !in seen && Located(es[0]);
      assert fs == (if head then [FeatureOf(es[0], routeIds)] else []) + rest;
      forall f | f in fs
        ensures exists i :: 0 <= i < |es| && Fresh(es, seen, i) && Located(es[i]) && f == FeatureOf(es[i], routeIds)
      {
        if head && f == FeatureOf(es[0], routeIds) {
          assert Fresh(es, seen, 0);
        } else {
          assert f in rest;
          var i :| 0 <= i < |es[1..]| && Fresh(es[1..], seen', i) && Located(es[1..][i]) && f == FeatureOf(es[1..][i], routeIds);
          assert es[1..][i] == es[i + 1];
        }
      }
      forall i | 0 <= i < |es| && Fresh(es, seen, i) && Located(es[i])
        ensures FeatureOf(es[i], routeIds) in fs
      {
        if i > 0 {
          assert es[1..][i - 1] == es[i];
          assert FeatureOf(es[1..][i - 1], routeIds) in rest;
        }
      }
      if head {
        forall k | 0 <= k < |rest|
          ensures FeatureKey(rest[k]) != KeyOf(es[0])
        {
          assert FeatureKey(rest[k]) !in seen';
        }
      }
    }
  }

  /** Score first, highest first; then the name, a missing name counting as "". */
  function SortName(f: Feature): string
  {
    f.name.GetOr("")
  }

  /** Python's `<=` on strings: code point by code point, a prefix first. */
  predicate StringLe(a: string, b: string)
    decreases |a|
  {
    a == [] || (b != [] && (a[0] < b[0] || (a[0] == b[0] && StringLe(a[1..], b[1..]))))
  }

  lemma {:induction false} StringLeTotal(a: string, b: string)
    ensures StringLe(a, b) || StringLe(b, a)
    decreases |a|
  {
    if a != [] && b != [] && a[0] == b[0] {
      StringLeTotal(a[1..], b[1..]);
    }
  }

  lemma {:induction false} StringLeTransitive(a: string, b: string, c: string)
    requires StringLe(a, b) && StringLe(b, c)
    ensures StringLe(a, c)
    decreases |a|
  {
    if a != [] && a[0] == b[0] && b[0] == c[0] {
      StringLeTransitive(a[1..], b[1..], c[1..]);
    }
  }

  /** The order of `key=lambda f: (-score, name or "")`. */
  predicate FeatureLe(f: Feature, g: Feature)
  {
    f.importanceScore > g.importanceScore ||
    (f.importanceScore == g.importanceScore && StringLe(SortName(f), SortName(g)))
  }

  lemma {:induction false} FeatureLeTotalPreorder()
    ensures TotalPreorder(FeatureLe)
  {
    forall f, g
      ensures FeatureLe(f, g) || FeatureLe(g, f)
    {
      StringLeTotal(SortName(f), SortName(g));
    }
    forall f, g, h | FeatureLe(f, g) && FeatureLe(g, h)
      ensures FeatureLe(f, h)
    {
      if f.importanceScore == g.importanceScore == h.importanceScore {
        StringLeTransitive(SortName(f), SortName(g), SortName(h));
      }
    }
  }

  /**
   * `build_geojson`: walks the elements once, skipping a key already seen and
   * an element with no position, then sorts the features by score (highest
   * first) and name. Fails when a fresh node lacks "lat" or "lon".
   */
  method BuildGeojson(elements: seq<Element>, routeIds: set<int>) returns (r: Result<seq<Feature>, ScriptError>)
    ensures r.Failure? <==>
      exists i :: 0 <= i < |elements| && Fresh(elements, {}, i) && ElementCenter(elements[i]).Failure?
    ensures r.Success? ==>
      && |r.value| <= |elements|
      && SortedBy(r.value, FeatureLe)
      && DistinctBy(r.value, FeatureKey)
      && (forall f :: f in r.value <==>
            exists i :: 0 <= i < |elements| && Fresh(elements, {}, i) && Located(elements[i]) && f == FeatureOf(elements[i], routeIds))
  {
    var seen: set<Key> := {};
    var features: seq<Feature> := [];
    var i := 0;
    ThenEmpty(Gather(elements, {}, routeIds));
    assert elements[0..] == elements;
    while i < |elements|
      invariant 0 <= i <= |elements|
      invariant Gather(elements, {}, routeIds) == Then(features, Gather(elements[i..], seen, routeIds))
    {
      var e := elements[i];
      GatherStep(elements, i, seen, routeIds);
      var key := KeyOf(e);
      if key !in seen {
        var seen' := seen + {key};
        var center := ElementCenter(e);
        if center.Failure? {
          GatherFails(elements, {}, routeIds);
          return Failure(center.error);
        }
        if center.value.Some? {
          var feature := FeatureOf(e, routeIds);
          ThenThen(features, [feature], Gather(elements[i + 1..], seen', routeIds));
          features := features + [feature];
        }
        seen := seen';
      }
      i := i + 1;
    }
    assert elements[i..] == [];
    assert features + [] == features;
    GatherFails(elements, {}, routeIds);
    RankedContents(elements, routeIds);
    r := Success(SortBy(features, FeatureLe));
  }

  /** One turn of the loop: how the rest of the list from position i is gathered. */
  lemma {:induction false} GatherStep(es: seq<Element>, i: nat, seen: set<Key>, routeIds: set<int>)
    requires i < |es|
    ensures Gather(es[i..], seen, routeIds) ==
      if KeyOf(es[i]) in seen then Gather(es[i + 1..], seen, routeIds)
      else match ElementCenter(es[i])
        case Failure(err) => Failure(err)
        case Success(None) => Gather(es[i + 1..], seen + {KeyOf(es[i])}, routeIds)
        case Success(Some(_)) => Then([FeatureOf(es[i], routeIds)], Gather(es[i + 1..], seen + {KeyOf(es[i])}, routeIds))
  {
    assert es[i..][0] == es[i] && es[i..][1..] == es[i + 1..];
  }

  /** The gathered features, sorted: what `build_geojson` returns when nothing fails. */
  lemma {:induction false} RankedContents(elements: seq<Element>, routeIds: set<int>)
    requires Gather(elements, {}, routeIds).Success?
    ensures var sorted := SortBy(Gather(elements, {}, routeIds).value, FeatureLe);
      && |sorted| <= |elements|
      && SortedBy(sorted, FeatureLe)
      && DistinctBy(sorted, FeatureKey)
      && (forall f :: f in sorted <==>
            exists i :: 0 <= i < |elements| && Fresh(elements, {}, i) && Located(elements[i]) && f == FeatureOf(elements[i], routeIds))
  {
    var features := Gather(elements, {}, routeIds).value;
    GatherContents(elements, {}, routeIds);
    FeatureLeTotalPreorder();
    SortSorted(features, FeatureLe);
    SortDistinct(features, FeatureLe, FeatureKey);
    var sorted := SortBy(features, FeatureLe);
    forall f
      ensures f in sorted <==> f in features
    {
      assert f in sorted <==> f in multiset(sorted);
    }
  }

  // ---------------------------------------------------------------------------
  // main

  /** A node with neither tags nor "lat": an entry of the trailing `out ids;` list. */
  predicate IsIdOnly(e: Element)
  {
    IsNode(e) && e.tags.None? && e.lat.None?
  }

  predicate IsFull(e: Element)
  {
    !IsIdOnly(e)
  }

  /** The ids of the id-only nodes: the members of the queried routes. */
  function RouteIdsOf(elements: seq<Element>): (ids: set<int>)
    ensures forall x :: x in ids <==>
      exists i :: 0 <= i < |elements| && IsIdOnly(elements[i]) && elements[i].id == Some(x)
  {
    set i | 0 <= i < |elements| && IsIdOnly(elements[i]) && elements[i].id.Some? :: elements[i].id.value
  }

  /**
   * The loop of `main` that separates route-member ids from full elements:
   * an id-only node adds its id (when it has one) to the set, every other
   * element is kept, in order.
   */
  method SplitRouteMembers(elements: seq<Element>) returns (routeIds: set<int>, kept: seq<Element>)
    ensures kept == Filter(elements, IsFull)
    ensures forall x :: x in routeIds <==>
      exists i :: 0 <= i < |elements| && IsIdOnly(elements[i]) && elements[i].id == Some(x)
    ensures routeIds == RouteIdsOf(elements)
  {
    routeIds := {};
    kept := [];
    var i := 0;
    while i < |elements|
      invariant 0 <= i <= |elements|
      invariant kept == Filter(elements[..i], IsFull)
      invariant forall x :: x in routeIds <==>
        exists j :: 0 <= j < i && IsIdOnly(elements[j]) && elements[j].id == Some(x)
    {
      var el := elements[i];
      FilterAppend(elements[..i], el, IsFull);
      assert elements[..i + 1] == elements[..i] + [el];
      if IsIdOnly(el) {
        if el.id.Some? {
          routeIds := routeIds + {el.id.value};
        }
      } else {
        kept := kept + [el];
      }
      i := i + 1;
    }
    assert elements[..i] == elements;
    assert forall x :: x in routeIds <==> x in RouteIdsOf(elements);
  }

  predicate IsTop(f: Feature)
  {
    f.importanceScore >= 4
  }

  /** The top subset: the features scoring 4 or more, in the order given. */
  function TopFeatures(features: seq<Feature>): (top: seq<Feature>)
    ensures forall f :: f in top <==> f in features && f.importanceScore >= 4
  {
    Filter(features, IsTop)
  }

  /** The top subset keeps the ranking order of the full list. */
  lemma {:induction false} TopFeaturesSorted(features: seq<Feature>)
    requires SortedBy(features, FeatureLe)
    ensures SortedBy(TopFeatures(features), FeatureLe)
  {
    FilterSorted(features, IsTop, FeatureLe);
  }

  /**
   * The computation of `main` between the Overpass response and the files
   * it writes: the split, the GeoJSON features and the top subset.
   */
  method RankStops(elements: seq<Element>) returns (r: Result<(seq<Feature>, seq<Feature>), ScriptError>)
    ensures var kept := Filter(elements, IsFull);
      r.Failure? <==> exists i :: 0 <= i < |kept| && Fresh(kept, {}, i) && ElementCenter(kept[i]).Failure?
    ensures r.Success? ==>
      var (all, top) := r.value;
      var kept := Filter(elements, IsFull);
      && (forall f :: f in all <==>
            exists i :: 0 <= i < |kept| && Fresh(kept, {}, i) && Located(kept[i]) && f == FeatureOf(kept[i], RouteIdsOf(elements)))
      && top == TopFeatures(all)
    ensures r.Success? ==>
      var (all, top) := r.value;
      && |all| <= |elements|
      && SortedBy(all, FeatureLe) && SortedBy(top, FeatureLe)
      && DistinctBy(all, FeatureKey)
      && (forall f :: f in top <==> f in all && f.importanceScore >= 4)
  {
    var routeIds, kept := SplitRouteMembers(elements);
    var built := BuildGeojson(kept, routeIds);
    match built
    case Failure(err) =>
      r := Failure(err);
    case Success(all) =>
      TopFeaturesSorted(all);
      r := Success((all, TopFeatures(all)));
  }
}
