/**
 * The name-keyed registry of routing algorithms (src/routing/routing_factory.cpp):
 * creators are registered under the key `algorithm_topology`; creating an
 * algorithm looks the configured pair up, falls back to the topology's
 * default algorithm, and fails when neither is registered.
 */
module Factory {
  import opened Wrappers
  import opened Settings

  /** What a registered creator builds. The 3D mesh placeholder builds the 2D mesh protocol. */
  datatype Protocol = DuatoMeshProtocol | EcubeProtocol | DuatoHypercubeProtocol

  /** The creator casts the network to a hypercube network and throws when it is not one. */
  predicate NeedsHypercube(p: Protocol)
  {
    p == EcubeProtocol || p == DuatoHypercubeProtocol
  }

  /** The `invalid_argument` exceptions `createRoutingAlgorithm` and the creators throw. */
  datatype FactoryError =
    | NoSuitableAlgorithm(topology: string, algorithm: string)
    | RequiresHypercubeNetwork(protocol: Protocol)

  /** `makeKey` */
  function MakeKey(algorithm: string, topology: string): (key: string)
    ensures |key| == |algorithm| + 1 + |topology|
    ensures key[..|algorithm|] == algorithm && key[|algorithm|] == '_' && key[|algorithm| + 1..] == topology
  {
    algorithm + "_" + topology
  }

  /** The position of the first '_' of `key`, or `|key|` when there is none (`find('_')`). */
  function FirstUnderscore(key: string): (k: nat)
    ensures k <= |key|
    ensures forall i :: 0 <= i < k ==> key[i] != '_'
    ensures k < |key| ==> key[k] == '_'
  {
    if key == [] || key[0] == '_' then 0 else 1 + FirstUnderscore(key[1..])
  }

  /** The key has a '_' and names `topology` after the first one. */
  predicate ForTopology(key: string, topology: string)
  {
    FirstUnderscore(key) < |key| && key[FirstUnderscore(key) + 1..] == topology
  }

  /** The algorithm part of a key: what comes before its first '_'. */
  function AlgorithmOf(key: string): string
  {
    key[..FirstUnderscore(key)]
  }

  /** The algorithms `getSupportedAlgorithms` reports for `topology`. */
  ghost function Supported(keys: set<string>, topology: string): set<string>
  {
    set key | key in keys && ForTopology(key, topology) :: AlgorithmOf(key)
  }

  /** A key made from an algorithm name without '_' splits back into its two names. */
  lemma MakeKeySplits(algorithm: string, topology: string)
    requires '_' !in algorithm
    ensures FirstUnderscore(MakeKey(algorithm, topology)) == |algorithm|
    ensures ForTopology(MakeKey(algorithm, topology), topology) && AlgorithmOf(MakeKey(algorithm, topology)) == algorithm
  {
    var key := MakeKey(algorithm, topology);
    assert forall i :: 0 <= i < |algorithm| ==> key[i] == algorithm[i] && key[i] != '_';
  }

  /** Keys are not unique: an algorithm name containing '_' can collide with another pair. */
  lemma MakeKeyCollides()
    ensures MakeKey("duato", "2D_mesh") == MakeKey("duato_2D", "mesh")
    ensures ForTopology(MakeKey("duato_2D", "mesh"), "2D_mesh")
  {
    var key := MakeKey("duato_2D", "mesh");
    assert FirstUnderscore(key[5..]) == 0;
    assert FirstUnderscore(key) == 5;
  }

  /**
   * The lookup of `createRoutingAlgorithm`: the configured pair when it is
   * registered; otherwise the topology's default when there is one and it is
   * registered; otherwise failure, naming the default when there is one.
   */
  function Lookup(creators: map<string, Protocol>, defaults: map<string, string>, algorithm: string, topology: string): (r: Result<(string, Protocol), FactoryError>)
    ensures MakeKey(algorithm, topology) in creators ==> r == Success((algorithm, creators[MakeKey(algorithm, topology)]))
    ensures var d := if topology in defaults then defaults[topology] else "";
            MakeKey(algorithm, topology) !in creators && d != "" && MakeKey(d, topology) in creators ==>
              r == Success((d, creators[MakeKey(d, topology)]))
    ensures var d := if topology in defaults then defaults[topology] else "";
            r.Failure? <==> MakeKey(algorithm, topology) !in creators && (d == "" || MakeKey(d, topology) !in creators)
    ensures var d := if topology in defaults then defaults[topology] else "";
            r.Failure? ==> r.error == NoSuitableAlgorithm(topology, if d != "" then d else algorithm)
  {
    var key := MakeKey(algorithm, topology);
    if key in creators then Success((algorithm, creators[key]))
    else
      var d := if topology in defaults then defaults[topology] else "";
      var chosen := if d != "" then d else algorithm;
      var key' := MakeKey(chosen, topology);
      if key' in creators then Success((chosen, creators[key'])) else Failure(NoSuitableAlgorithm(topology, chosen))
  }

  /** Running the creator found: the hypercube creators throw on a network that is not a hypercube. */
  function Instantiate(found: Result<(string, Protocol), FactoryError>, networkIsHypercube: bool): (r: Result<Protocol, FactoryError>)
    ensures found.Failure? ==> r == Failure(found.error)
    ensures found.Success? ==> (r.Success? <==> !NeedsHypercube(found.value.1) || networkIsHypercube)
    ensures r.Success? ==> found.Success? && r.value == found.value.1
  {
    if found.Failure? then Failure(found.error)
    else if NeedsHypercube(found.value.1) && !networkIsHypercube then Failure(RequiresHypercubeNetwork(found.value.1))
    else Success(found.value.1)
  }

  /** `parts` joined with `sep` between consecutive parts. */
  function Join(parts: seq<string>, sep: string): string
  {
    if parts == [] then ""
    else if |parts| == 1 then parts[0]
    else Join(parts[..|parts| - 1], sep) + sep + parts[|parts| - 1]
  }

  /** A join starts with the first part and ends with the last: there is no leading or trailing separator. */
  lemma {:induction false} JoinEnds(parts: seq<string>, sep: string)
    requires parts != []
    ensures |Join(parts, sep)| >= |parts[0]| && Join(parts, sep)[..|parts[0]|] == parts[0]
    ensures |Join(parts, sep)| >= |parts[|parts| - 1]| && Join(parts, sep)[|Join(parts, sep)| - |parts[|parts| - 1]|..] == parts[|parts| - 1]
  {
    if |parts| > 1 {
      var init := parts[..|parts| - 1];
      JoinEnds(init, sep);
      assert init[0] == parts[0];
      var j := Join(init, sep);
      assert Join(parts, sep) == j + sep + parts[|parts| - 1];
      assert (j + sep + parts[|parts| - 1])[..|parts[0]|] == j[..|parts[0]|];
    }
  }

  /** The length of a join: the parts plus one separator between each two. */
  lemma {:induction false} JoinLength(parts: seq<string>, sep: string)
    ensures |Join(parts, sep)| == TotalLength(parts) + (if parts == [] then 0 else (|parts| - 1) * |sep|)
  {
    if |parts| > 1 {
      JoinLength(parts[..|parts| - 1], sep);
      TotalLengthSnoc(parts[..|parts| - 1], parts[|parts| - 1]);
      assert parts[..|parts| - 1] + [parts[|parts| - 1]] == parts;
    } else if |parts| == 1 {
      assert parts == [] + [parts[0]];
      TotalLengthSnoc([], parts[0]);
    }
  }

  function TotalLength(parts: seq<string>): nat
  {
    if parts == [] then 0 else TotalLength(parts[..|parts| - 1]) + |parts[|parts| - 1]|
  }

  lemma TotalLengthSnoc(parts: seq<string>, p: string)
    ensures TotalLength(parts + [p]) == TotalLength(parts) + |p|
  {
    assert (parts + [p])[..|parts|] == parts;
  }

  /** The keys `initializeBuiltinAlgorithms` registers, with what each builds. */
  function BuiltinCreators(): (m: map<string, Protocol>)
    ensures m.Keys == {MakeKey("duato", "2D_mesh"), MakeKey("ecube", "hypercube"), MakeKey("duato", "hypercube"), MakeKey("duato", "3D_mesh")}
  {
    map[MakeKey("duato", "2D_mesh") := DuatoMeshProtocol,
        MakeKey("ecube", "hypercube") := EcubeProtocol,
        MakeKey("duato", "hypercube") := DuatoHypercubeProtocol,
        MakeKey("duato", "3D_mesh") := DuatoMeshProtocol]
  }

  /** Registering the built-in creators one after another adds exactly `BuiltinCreators()`. */
  lemma BuiltinsByRegistration(m: map<string, Protocol>)
    ensures m[MakeKey("duato", "2D_mesh") := DuatoMeshProtocol][MakeKey("ecube", "hypercube") := EcubeProtocol]
             [MakeKey("duato", "hypercube") := DuatoHypercubeProtocol][MakeKey("duato", "3D_mesh") := DuatoMeshProtocol]
            == m + BuiltinCreators()
  {
  }

  /** The default algorithm `initializeBuiltinAlgorithms` sets for each topology. */
  function BuiltinDefaults(): (m: map<string, string>)
    ensures m.Keys == {"2D_mesh", "hypercube", "3D_mesh"}
  {
    map["2D_mesh" := "duato", "hypercube" := "ecube", "3D_mesh" := "duato"]
  }

  /**
   * With the built-in registrations: the default configuration builds the
   * mesh protocol; an unknown algorithm on a hypercube falls back to E-cube;
   * an unknown topology has no default and fails.
   */
  lemma BuiltinLookups()
    ensures Lookup(BuiltinCreators(), BuiltinDefaults(), DefaultConfig().routingAlgorithm, DefaultConfig().networkTopology)
            == Success(("duato", DuatoMeshProtocol))
    ensures Lookup(BuiltinCreators(), BuiltinDefaults(), "xy", "hypercube") == Success(("ecube", EcubeProtocol))
    ensures Lookup(BuiltinCreators(), BuiltinDefaults(), "duato", "hypercube") == Success(("duato", DuatoHypercubeProtocol))
    ensures Lookup(BuiltinCreators(), BuiltinDefaults(), "duato", "torus") == Failure(NoSuitableAlgorithm("torus", "duato"))
  {
    assert MakeKey("xy", "hypercube") !in BuiltinCreators() by {
      assert MakeKey("xy", "hypercube")[..2] == "xy";
    }
    assert MakeKey("duato", "torus") !in BuiltinCreators() by {
      assert |MakeKey("duato", "torus")| == 11;
    }
  }

  /** For an algorithm name without '_', being registered for a topology is the same as being reported for it. */
  lemma SupportedIffRegistered(creators: map<string, Protocol>, algorithm: string, topology: string)
    ensures '_' !in algorithm ==> (MakeKey(algorithm, topology) in creators <==> algorithm in Supported(creators.Keys, topology))
  {
    if '_' !in algorithm {
      MakeKeySplits(algorithm, topology);
    }
    if '_' !in algorithm && algorithm in Supported(creators.Keys, topology) {
      var key :| key in creators && ForTopology(key, topology) && AlgorithmOf(key) == algorithm;
      var k := FirstUnderscore(key);
      assert key == key[..k] + "_" + key[k + 1..];
      assert key == MakeKey(algorithm, topology);
    }
  }

  class RoutingFactory {
    /** `creators_`, by key */
    var creators: map<string, Protocol>
    /** `defaultAlgorithms_`, by topology */
    var defaultAlgorithms: map<string, string>

    constructor ()
      ensures creators == map[] && defaultAlgorithms == map[]
    {
      creators, defaultAlgorithms := map[], map[];
    }

    /** `registerRoutingAlgorithm`: stores the creator under the pair's key, replacing any earlier one. */
    method RegisterRoutingAlgorithm(algorithm: string, topology: string, creator: Protocol)
      modifies this
      ensures creators == old(creators)[MakeKey(algorithm, topology) := creator]
      ensures defaultAlgorithms == old(defaultAlgorithms)
    {
      var key := MakeKey(algorithm, topology);
      creators := creators[key := creator];
    }

    /** `initializeBuiltinAlgorithms` */
    method InitializeBuiltinAlgorithms()
      modifies this
      ensures creators == old(creators) + BuiltinCreators()
      ensures defaultAlgorithms == old(defaultAlgorithms) + BuiltinDefaults()
    {
      RegisterRoutingAlgorithm("duato", "2D_mesh", DuatoMeshProtocol);
      RegisterRoutingAlgorithm("ecube", "hypercube", EcubeProtocol);
      RegisterRoutingAlgorithm("duato", "hypercube", DuatoHypercubeProtocol);
      RegisterRoutingAlgorithm("duato", "3D_mesh", DuatoMeshProtocol);
      BuiltinsByRegistration(old(creators));
      defaultAlgorithms := defaultAlgorithms["2D_mesh" := "duato"];
      defaultAlgorithms := defaultAlgorithms["hypercube" := "ecube"];
      defaultAlgorithms := defaultAlgorithms["3D_mesh" := "duato"];
    }

    /** `getInstance`: the registry after the built-in registrations. */
    constructor Instance()
      ensures creators == BuiltinCreators() && defaultAlgorithms == BuiltinDefaults()
    {
      creators, defaultAlgorithms := map[], map[];
      new;
      InitializeBuiltinAlgorithms();
    }

    /** `isAlgorithmSupported` */
    function IsAlgorithmSupported(algorithm: string, topology: string): (r: bool)
      reads this
      ensures r <==> MakeKey(algorithm, topology) in creators
      ensures '_' !in algorithm ==> (r <==> algorithm in Supported(creators.Keys, topology))
    {
      SupportedIffRegistered(creators, algorithm, topology);
      MakeKey(algorithm, topology) in creators
    }

    /** `getDefaultAlgorithm`: the topology's default, or "" when it has none. */
    function GetDefaultAlgorithm(topology: string): (r: string)
      reads this
      ensures topology in defaultAlgorithms ==> r == defaultAlgorithms[topology]
      ensures topology !in defaultAlgorithms ==> r == ""
    {
      if topology in defaultAlgorithms then defaultAlgorithms[topology] else ""
    }

    /** `createRoutingAlgorithm`: look the configured pair up, fall back to the default, then run the creator. */
    method CreateRoutingAlgorithm(config: Config, networkIsHypercube: bool) returns (r: Result<Protocol, FactoryError>)
      ensures r == Instantiate(Lookup(creators, defaultAlgorithms, config.routingAlgorithm, config.networkTopology), networkIsHypercube)
    {
      var topology := config.networkTopology;
      var algorithm := config.routingAlgorithm;
      var key := MakeKey(algorithm, topology);
      var found := key in creators;
      if !found {
        var defaultAlg := GetDefaultAlgorithm(topology);
        if defaultAlg != "" {
          algorithm := defaultAlg;
          key := MakeKey(algorithm, topology);
          found := key in creators;
        }
      }
      if !found {
        return Failure(NoSuitableAlgorithm(topology, algorithm));
      }
      var creator := creators[key];
      if NeedsHypercube(creator) && !networkIsHypercube {
        return Failure(RequiresHypercubeNetwork(creator));
      }
      r := Success(creator);
    }

    /**
     * `getSupportedAlgorithms`: the algorithm part of every key whose topology
     * part is `topology`, once each, in the map's (unspecified) iteration order.
     */
    method GetSupportedAlgorithms(topology: string) returns (algorithms: seq<string>)
      ensures forall a :: a in algorithms <==> a in Supported(creators.Keys, topology)
      ensures forall i, j :: 0 <= i < j < |algorithms| ==> algorithms[i] != algorithms[j]
    {
      algorithms := [];
      var remaining := creators.Keys;
      ghost var visited: set<string> := {};
      while remaining != {}
        invariant remaining + visited == creators.Keys && remaining !! visited
        invariant Collected(algorithms, visited, topology)
        decreases |remaining|
      {
        var key :| key in remaining;
        CollectStep(algorithms, visited, topology, key);
        var pos := FirstUnderscore(key);
        if pos < |key| && key[pos + 1..] == topology {
          algorithms := algorithms + [key[..pos]];
        }
        remaining := remaining - {key};
        visited := visited + {key};
      }
    }

    /** `getSupportedAlgorithmsString`: the supported algorithms joined by ", ". */
    method GetSupportedAlgorithmsString(topology: string) returns (s: string)
      ensures exists algorithms: seq<string> :: Collected(algorithms, creators.Keys, topology) && s == Join(algorithms, ", ")
    {
      var algorithms := GetSupportedAlgorithms(topology);
      s := "";
      var i := 0;
      while i < |algorithms|
        invariant 0 <= i <= |algorithms|
        invariant s == Join(algorithms[..i], ", ") + (if 0 < i < |algorithms| then ", " else "")
      {
        assert algorithms[..i + 1][..i] == algorithms[..i];
        s := s + algorithms[i];
        if i < |algorithms| - 1 {
          s := s + ", ";
        }
        i := i + 1;
      }
      assert algorithms[..i] == algorithms;
    }
  }

  /** `algorithms` names the algorithms of the keys `visited` for `topology`, each once. */
  ghost predicate Collected(algorithms: seq<string>, visited: set<string>, topology: string)
  {
    (forall a :: a in algorithms <==> a in Supported(visited, topology))
    && forall i, j :: 0 <= i < j < |algorithms| ==> algorithms[i] != algorithms[j]
  }

  /** Visiting one more key adds its algorithm when it is for `topology`, and keeps the names distinct. */
  lemma CollectStep(algorithms: seq<string>, visited: set<string>, topology: string, key: string)
    requires Collected(algorithms, visited, topology) && key !in visited
    ensures Collected(if ForTopology(key, topology) then algorithms + [AlgorithmOf(key)] else algorithms, visited + {key}, topology)
  {
    SupportedInsert(visited, topology, key);
    if ForTopology(key, topology) {
      NewAlgorithm(algorithms, visited, topology, key);
    }
  }

  lemma SupportedInsert(visited: set<string>, topology: string, key: string)
    ensures Supported(visited + {key}, topology)
            == Supported(visited, topology) + (if ForTopology(key, topology) then {AlgorithmOf(key)} else {})
  {
  }

  /** A key not yet visited brings an algorithm not yet collected. */
  lemma NewAlgorithm(algorithms: seq<string>, visited: set<string>, topology: string, key: string)
    requires Collected(algorithms, visited, topology) && key !in visited && ForTopology(key, topology)
    ensures AlgorithmOf(key) !in algorithms
  {
    forall k | k in visited && ForTopology(k, topology) && AlgorithmOf(k) == AlgorithmOf(key)
      ensures false
    {
      SameSplitSameKey(k, key);
    }
  }

  /** Two keys with the same algorithm part and the same topology part are the same key. */
  lemma SameSplitSameKey(a: string, b: string)
    requires FirstUnderscore(a) < |a| && FirstUnderscore(b) < |b|
    requires AlgorithmOf(a) == AlgorithmOf(b) && a[FirstUnderscore(a) + 1..] == b[FirstUnderscore(b) + 1..]
    ensures a == b
  {
    var ka, kb := FirstUnderscore(a), FirstUnderscore(b);
    assert a == a[..ka] + [a[ka]] + a[ka + 1..];
    assert b == b[..kb] + [b[kb]] + b[kb + 1..];
  }
}
