/**
  WithExtraHeaders: a header map flattened into the alternating
  name, value, name, value, ... argument list a page's SetExtraHeaders
  takes, which rebuilds a map from consecutive pairs.
 */
module PageOptions {

  /**
    The header map SetExtraHeaders builds from an alternating list: pairs are
    stored in order, so a name given twice keeps its last value.
   */
  function PairsToMap(args: seq<string>): (m: map<string, string>)
    requires |args| % 2 == 0
    ensures forall i :: 0 <= i < |args| && i % 2 == 0 ==> args[i] in m
    ensures forall k | k in m :: exists i :: 0 <= i < |args| && i % 2 == 0 && args[i] == k
    decreases |args|
  {
    if args == [] then map[]
    else
      var init := PairsToMap(args[..|args| - 2]);
      assert forall i :: 0 <= i < |args| - 2 ==> args[..|args| - 2][i] == args[i];
      init[args[|args| - 2] := args[|args| - 1]]
  }

  /** Appending one pair stores that pair over what the list already held. */
  lemma PairsToMapSnoc(args: seq<string>, name: string, value: string)
    requires |args| % 2 == 0
    ensures PairsToMap(args + [name, value]) == PairsToMap(args)[name := value]
  {
    assert (args + [name, value])[..|args|] == args;
  }

  /**
    The arguments WithExtraHeaders passes: every header once, as its name
    followed by its value, in the map's iteration order (which Go leaves
    unspecified and the model leaves open). Rebuilding a map from them gives
    back exactly the header map.
   */
  method ExtraHeaderArgs(headers: map<string, string>) returns (args: seq<string>)
    ensures |args| == 2 * |headers|
    ensures PairsToMap(args) == headers
  {
    args := [];
    var rest := headers.Keys;
    while rest != {}
      invariant rest <= headers.Keys
      invariant |args| == 2 * (|headers| - |rest|)
      invariant PairsToMap(args) == headers - rest
      decreases rest
    {
      var name :| name in rest;
      PairsToMapSnoc(args, name, headers[name]);
      assert (headers - rest)[name := headers[name]] == headers - (rest - {name});
      args := args + [name, headers[name]];
      rest := rest - {name};
    }
    assert headers - {} == headers;
  }
}
