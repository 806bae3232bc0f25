/**
 * The node request handlers: `GET /api/nodes` collects the information the
 * configuration backend holds on every node into a node map keyed by node
 * name; `GET /api/nodes/` lists the node names. The backend is a parameter:
 * the list of node names it returns and its per-node lookup.
 */
module NodesHandlers {
  import opened Wrappers
  import opened Text
  import opened Configuration

  /** The control characters Tornado turns into spaces in every argument value it decodes. */
  predicate IsControl(c: char) {
    c <= '\U{08}' || ('\U{0E}' <= c <= '\U{1F}')
  }

  /** A decoded argument value with each control character replaced by a space. */
  function ReplaceControlChars(s: string): (r: string)
    ensures |r| == |s|
    ensures forall k :: 0 <= k < |s| ==> r[k] == (if IsControl(s[k]) then ' ' else s[k])
  {
    seq(|s|, k requires 0 <= k < |s| => if IsControl(s[k]) then ' ' else s[k])
  }

  /**
   * `get_query_argument(name, default, strip=True)` given every value the
   * query carries for that name: the last value, its control characters
   * blanked and then stripped, or the default (unstripped) when there is none.
   */
  function QueryArgument(values: seq<string>, default: string): (r: string)
    ensures values == [] ==> r == default
    ensures values != [] ==> r == Strip(ReplaceControlChars(values[|values| - 1]))
  {
    if values == [] then default else Strip(ReplaceControlChars(values[|values| - 1]))
  }

  /** The query value, once lower-cased, is exactly "true". */
  predicate IncludeClassInfo(values: seq<string>) {
    Lower(QueryArgument(values, "")) == "true"
  }

  /** An independent reading: four characters that spell "true" without regard to ASCII case. */
  predicate SpellsTrue(s: string) {
    |s| == 4 && forall k :: 0 <= k < 4 ==> LowerChar(s[k]) == "true"[k]
  }

  /** The flag is set exactly when the last value, stripped, spells "true" in any case. */
  lemma IncludeClassInfoIff(values: seq<string>)
    ensures IncludeClassInfo(values) <==> values != [] && SpellsTrue(Strip(ReplaceControlChars(values[|values| - 1])))
  {
    var arg := QueryArgument(values, "");
    LowerLength(arg);
    if Lower(arg) == "true" {
      forall k | 0 <= k < 4
        ensures LowerChar(arg[k]) == "true"[k]
      {
        LowerAt(arg, k);
      }
    }
    if |arg| == 4 && forall k :: 0 <= k < 4 ==> LowerChar(arg[k]) == "true"[k] {
      forall k | 0 <= k < 4
        ensures Lower(arg)[k] == "true"[k]
      {
        LowerAt(arg, k);
      }
    }
  }

  /** Only the last value counts: earlier values never change the flag. */
  lemma IncludeClassInfoReadsLast(earlier: seq<string>, last: string)
    ensures IncludeClassInfo(earlier + [last]) == IncludeClassInfo([last])
  {
    assert (earlier + [last])[|earlier + [last]| - 1] == last;
  }

  /** A blank or control character is read as a blank. */
  predicate IsPadding(c: char) {
    IsWhitespace(c) || IsControl(c)
  }

  /**
   * "true" in any letter case, surrounded by any blanks and control
   * characters, sets the flag.
   */
  lemma IncludeClassInfoIgnoresPadding(before: string, word: string, after: string)
    requires forall k :: 0 <= k < |before| ==> IsPadding(before[k])
    requires forall k :: 0 <= k < |after| ==> IsPadding(after[k])
    requires SpellsTrue(word)
    ensures IncludeClassInfo([before + word + after])
  {
    var v := before + word + after;
    var r := ReplaceControlChars(v);
    var i, j := |before|, |before| + |word|;
    forall k | 0 <= k < i ensures IsWhitespace(r[k]) {
      assert v[k] == before[k];
    }
    forall k | j <= k < |r| ensures IsWhitespace(r[k]) {
      assert v[k] == after[k - j];
    }
    forall k | 0 <= k < |word| ensures r[i + k] == word[k] {
      assert v[i + k] == word[k];
      SpelledLetter(word[k], k);
    }
    StripPadded(r, i, j);
    assert r[i..j] == word;
    IncludeClassInfoIff([v]);
  }

  /** A character that lowers to a letter of "true" is an ASCII letter, neither blank nor control. */
  lemma SpelledLetter(c: char, k: nat)
    requires k < 4 && LowerChar(c) == "true"[k]
    ensures 'A' <= c <= 'z' && !IsWhitespace(c) && !IsControl(c)
  {
  }

  /** Without a value the flag is off. */
  lemma IncludeClassInfoDefaultsOff()
    ensures !IncludeClassInfo([])
  {
    assert Lower("") == "";
  }

  /** `NodeMap`: node information, one attribute per node name. */
  class NodeMap {
    var nodes: map<string, NodeInfo>

    constructor ()
      ensures nodes == map[]
    {
      nodes := map[];
    }

    /** `add(nodeInfo)`: sets the attribute named after the node, replacing any earlier one. */
    method Add(nodeInfo: NodeInfo)
      modifies this
      ensures nodes == old(nodes)[nodeInfo.name := nodeInfo]
    {
      nodes := nodes[nodeInfo.name := nodeInfo];
    }
  }

  /** The backend's `getNode(name, includeDevices, flatDeviceHierarchy)`; `None` when it has no such node. */
  type NodeLookup = (string, bool, bool) -> Option<NodeInfo>

  /** The node map after adding, in order, every node the backend returns for these names (without devices). */
  function CollectNodes(names: seq<string>, getNode: NodeLookup): map<string, NodeInfo> {
    if names == [] then map[]
    else
      var earlier := CollectNodes(names[..|names| - 1], getNode);
      match getNode(names[|names| - 1], false, false)
      case Some(info) => earlier[info.name := info]
      case None => earlier
  }

  /** The names the backend has no information for, in order: each is logged as an error. */
  function MissingNames(names: seq<string>, getNode: NodeLookup): seq<string> {
    if names == [] then []
    else
      MissingNames(names[..|names| - 1], getNode)
      + (if getNode(names[|names| - 1], false, false).None? then [names[|names| - 1]] else [])
  }

  /** Whether the node at position `k` is found and reported under `key`. */
  predicate FoundAs(names: seq<string>, getNode: NodeLookup, k: int, key: string)
    requires 0 <= k < |names|
  {
    getNode(names[k], false, false).Some? && getNode(names[k], false, false).value.name == key
  }

  /**
   * The node map holds a key exactly when some name's lookup yields a node of
   * that name, and its value is the one from the last such lookup.
   */
  lemma {:induction false} CollectNodesLastWins(names: seq<string>, getNode: NodeLookup, key: string)
    ensures key in CollectNodes(names, getNode) <==> exists k :: 0 <= k < |names| && FoundAs(names, getNode, k, key)
    ensures key in CollectNodes(names, getNode) ==>
              exists k :: 0 <= k < |names| && FoundAs(names, getNode, k, key)
                && CollectNodes(names, getNode)[key] == getNode(names[k], false, false).value
                && forall j :: k < j < |names| ==> !FoundAs(names, getNode, j, key)
  {
    if names != [] {
      var prefix := names[..|names| - 1];
      var last := |names| - 1;
      CollectNodesLastWins(prefix, getNode, key);
      assert forall k :: 0 <= k < last ==> names[k] == prefix[k];
      assert forall k :: 0 <= k < last ==> (FoundAs(names, getNode, k, key) <==> FoundAs(prefix, getNode, k, key));
      if FoundAs(names, getNode, last, key) {
        assert CollectNodes(names, getNode)[key] == getNode(names[last], false, false).value;
      } else if key in CollectNodes(prefix, getNode) {
        var k :| 0 <= k < |prefix| && FoundAs(prefix, getNode, k, key)
                 && CollectNodes(prefix, getNode)[key] == getNode(prefix[k], false, false).value
                 && forall j :: k < j < |prefix| ==> !FoundAs(prefix, getNode, j, key);
        assert FoundAs(names, getNode, k, key);
      }
    }
  }

  /** Every missing name is one of the requested names whose lookup failed, and every failed lookup is reported. */
  lemma {:induction false} MissingNamesExact(names: seq<string>, getNode: NodeLookup, name: string)
    ensures name in MissingNames(names, getNode) <==> name in names && getNode(name, false, false).None?
  {
    if names != [] {
      var prefix := names[..|names| - 1];
      MissingNamesExact(prefix, getNode, name);
      assert names == prefix + [names[|names| - 1]];
    }
  }

  /** Every name is either in the node map (for a backend that reports nodes under their own name) or missing. */
  lemma {:induction false} CollectNodesSelfNamed(names: seq<string>, getNode: NodeLookup, name: string)
    requires forall n :: getNode(n, false, false).Some? ==> getNode(n, false, false).value.name == n
    ensures name in CollectNodes(names, getNode) <==> name in names && getNode(name, false, false).Some?
    ensures name in CollectNodes(names, getNode) ==> CollectNodes(names, getNode)[name] == getNode(name, false, false).value
  {
    CollectNodesLastWins(names, getNode, name);
    if name in CollectNodes(names, getNode) {
      var k :| 0 <= k < |names| && FoundAs(names, getNode, k, name);
      assert names[k] == name;
    }
    if name in names && getNode(name, false, false).Some? {
      var k :| 0 <= k < |names| && names[k] == name;
      assert FoundAs(names, getNode, k, name);
    }
  }

  /** A backend of three nodes, as in the cluster the handlers are exercised against: each is reported under its own name. */
  function ThreeNodeBackend(name: string, includeDevices: bool, flatDeviceHierarchy: bool): Option<NodeInfo> {
    if name == "node1" then Some(NodeInfo("node1", "tcp://127.0.0.1:5000", Active, Running))
    else if name == "node2" then Some(NodeInfo("node2", "tcp://127.0.0.1:6000", Passive, Running))
    else if name == "node3" then Some(NodeInfo("node3", "tcp://127.0.0.1:7000", Thin, Running))
    else None
  }

  /** Against that backend the node map has the three nodes with their roles, all running. */
  lemma ThreeNodeCluster()
    ensures var nodes := CollectNodes(["node1", "node2", "node3"], ThreeNodeBackend);
            && nodes.Keys == {"node1", "node2", "node3"}
            && nodes["node1"].role == Active && nodes["node2"].role == Passive && nodes["node3"].role == Thin
            && forall n :: n in nodes ==> nodes[n].name == n && nodes[n].state == Running
  {
    var names := ["node1", "node2", "node3"];
    var nodes := CollectNodes(names, ThreeNodeBackend);
    forall n
      ensures n in nodes <==> n in names
      ensures n in nodes ==> nodes[n] == ThreeNodeBackend(n, false, false).value
    {
      CollectNodesSelfNamed(names, ThreeNodeBackend, n);
    }
  }

  /** A name the backend does not know is the only one logged. */
  lemma ThreeNodeClusterMissing()
    ensures MissingNames(["node1", "node2", "node3", "node4"], ThreeNodeBackend) == ["node4"]
  {
    var names := ["node1", "node2", "node3", "node4"];
    assert names[..3] == ["node1", "node2", "node3"];
    assert names[..3][..2] == ["node1", "node2"];
    assert names[..3][..2][..1] == ["node1"];
    assert ["node1"][..0] == [];
    assert MissingNames(["node1"], ThreeNodeBackend) == [];
    assert MissingNames(["node1", "node2"], ThreeNodeBackend) == [];
    assert MissingNames(["node1", "node2", "node3"], ThreeNodeBackend) == [];
  }

  /** The body of `GET /api/nodes`, before it is serialized as pretty-printed JSON. */
  datatype NodesResponse = NodesResponse(nodes: map<string, NodeInfo>, includeClassInfo: bool)

  /** `Nodes.get`: one lookup per node name, found nodes added to the node map, the others logged. */
  method NodesGet(includeClassInfoValues: seq<string>, nodeNames: seq<string>, getNode: NodeLookup)
    returns (response: NodesResponse, errors: seq<string>)
    ensures response.includeClassInfo == IncludeClassInfo(includeClassInfoValues)
    ensures response.nodes == CollectNodes(nodeNames, getNode)
    ensures errors == MissingNames(nodeNames, getNode)
  {
    var includeClassInfo := Lower(QueryArgument(includeClassInfoValues, "")) == "true";
    var nodeMap := new NodeMap();
    errors := [];
    for i := 0 to |nodeNames|
      invariant nodeMap.nodes == CollectNodes(nodeNames[..i], getNode)
      invariant errors == MissingNames(nodeNames[..i], getNode)
    {
      assert nodeNames[..i + 1][..i] == nodeNames[..i];
      var nodeInfo := getNode(nodeNames[i], false, false);
      match nodeInfo {
        case Some(info) => nodeMap.Add(info);
        case None => errors := errors + [nodeNames[i]];
      }
    }
    assert nodeNames[..|nodeNames|] == nodeNames;
    response := NodesResponse(nodeMap.nodes, includeClassInfo);
  }

  /** The body of `GET /api/nodes/`, before it is serialized as JSON with sorted keys. */
  datatype ListResponse = ListResponse(description: string, list: seq<string>)

  /** `NodeList.get`: the node names, in the backend's order, under the description "list of nodes". */
  function NodeListGet(nodeNames: seq<string>): (response: ListResponse)
    ensures response.description == "list of nodes"
    ensures response.list == nodeNames
  {
    ListResponse("list of nodes", nodeNames)
  }
}
