/**
 * The device-tree side: a pin-configuration node's children become pinctrl
 * map entries (`tegra_pinctrl_dt_subnode_to_map`, `tegra_pinctrl_dt_node_to_map`),
 * and `strip_prefix` shortens a property name for display.
 */
module DeviceTree {
  import opened Wrappers
  import opened Tables

  /** A configuration as taken from a property: the parameter and the u32 value read, before packing. */
  datatype DtConfig = DtConfig(param: Param, value: nat)

  /** The `nvidia,pins` list, or the negative error its parse gave. */
  datatype Pins = PinList(names: seq<string>) | PinsError(code: int)

  /**
   * A child node as the reads see it: `nvidia,function` if it reads as a
   * string, the u32 properties that read successfully (a missing or malformed
   * one is skipped), and the pin list.
   */
  datatype Subnode = Subnode(func: Option<string>, props: map<string, nat>, pins: Pins)

  /** A pinctrl map entry: a mux setting or a configuration list for one group. */
  datatype MapEntry = MuxMap(group: string, func: string) | ConfigsMap(group: string, configs: seq<DtConfig>)

  /** The maps of a node, or the error that ended the walk. */
  datatype DtResult = Maps(entries: seq<MapEntry>) | DtError(code: int)

  /** The indices, from `i` on, of the properties of `table` present in `props`, ascending. */
  function Present(table: seq<(string, Param)>, props: map<string, nat>, i: nat): (r: seq<nat>)
    requires i <= |table|
    ensures forall k :: 0 <= k < |r| ==> i <= r[k] < |table| && table[r[k]].0 in props
    decreases |table| - i
  {
    if i == |table| then []
    else if table[i].0 in props then [i] + Present(table, props, i + 1)
    else Present(table, props, i + 1)
  }

  /** Every present property is listed, each once, in table order. */
  lemma {:induction false} PresentExact(table: seq<(string, Param)>, props: map<string, nat>, i: nat)
    requires i <= |table|
    ensures forall j :: i <= j < |table| ==> (j in Present(table, props, i) <==> table[j].0 in props)
    ensures forall a, b :: 0 <= a < b < |Present(table, props, i)| ==> Present(table, props, i)[a] < Present(table, props, i)[b]
    decreases |table| - i
  {
    if i < |table| {
      PresentExact(table, props, i + 1);
      var rest := Present(table, props, i + 1);
      if table[i].0 in props {
        assert Present(table, props, i) == [i] + rest;
        assert forall k :: 0 <= k < |rest| ==> i < rest[k];
        forall a, b | 0 <= a < b < |[i] + rest|
          ensures ([i] + rest)[a] < ([i] + rest)[b]
        {
          if a > 0 {
            assert ([i] + rest)[a] == rest[a - 1] && ([i] + rest)[b] == rest[b - 1];
          }
        }
      } else {
        assert Present(table, props, i) == rest;
      }
    }
  }

  /** The loop over `cfg_params`: one configuration per property present, in table order. */
  function SubnodeConfigs(props: map<string, nat>): (r: seq<DtConfig>)
    ensures |r| == |Present(CfgParams, props, 0)|
    ensures forall k :: 0 <= k < |r| ==>
              var i := Present(CfgParams, props, 0)[k]; r[k] == DtConfig(CfgParams[i].1, props[CfgParams[i].0])
  {
    var ix := Present(CfgParams, props, 0);
    seq(|ix|, k requires 0 <= k < |ix| => DtConfig(CfgParams[ix[k]].1, props[CfgParams[ix[k]].0]))
  }

  /** The entries for each pin: the mux map if a function is named, then the configuration map if there are configurations. */
  function PinMaps(func: Option<string>, configs: seq<DtConfig>, pins: seq<string>): (r: seq<MapEntry>)
    ensures |r| == ((if func.Some? then 1 else 0) + (if configs != [] then 1 else 0)) * |pins|
  {
    if pins == [] then []
    else
      (if func.Some? then [MuxMap(pins[0], func.value)] else []) +
      (if configs != [] then [ConfigsMap(pins[0], configs)] else []) +
      PinMaps(func, configs, pins[1..])
  }

  /** `tegra_pinctrl_dt_subnode_to_map`: the error of the pin list, or the maps for all its pins. */
  function SubnodeToMap(n: Subnode): (r: DtResult)
    ensures n.pins.PinsError? <==> r.DtError?
    ensures r.DtError? ==> r.code == n.pins.code
  {
    match n.pins
    case PinsError(code) => DtError(code)
    case PinList(names) => Maps(PinMaps(n.func, SubnodeConfigs(n.props), names))
  }

  /** Every entry is for one of the node's pins and carries the node's function or its whole configuration list. */
  lemma {:induction false} PinMapsEntries(func: Option<string>, configs: seq<DtConfig>, pins: seq<string>)
    ensures forall e :: e in PinMaps(func, configs, pins) ==>
              && e.group in pins
              && (e.MuxMap? ==> func == Some(e.func))
              && (e.ConfigsMap? ==> e.configs == configs && configs != [])
  {
    if pins != [] {
      PinMapsEntries(func, configs, pins[1..]);
    }
  }

  /** With both a function and configurations, pin `p` has entries `2p` (mux) and `2p + 1` (configurations). */
  lemma {:induction false} PinMapsOrder(func: Option<string>, configs: seq<DtConfig>, pins: seq<string>, p: nat)
    requires func.Some? && configs != [] && p < |pins|
    ensures |PinMaps(func, configs, pins)| == 2 * |pins|
    ensures PinMaps(func, configs, pins)[2 * p] == MuxMap(pins[p], func.value)
    ensures PinMaps(func, configs, pins)[2 * p + 1] == ConfigsMap(pins[p], configs)
  {
    var head := [MuxMap(pins[0], func.value)] + [ConfigsMap(pins[0], configs)];
    assert PinMaps(func, configs, pins) == head + PinMaps(func, configs, pins[1..]);
    if p > 0 {
      PinMapsOrder(func, configs, pins[1..], p - 1);
    }
  }

  /** The entries of a child whose pin list parsed. */
  function ChildMaps(c: Subnode): seq<MapEntry>
    requires c.pins.PinList?
  {
    PinMaps(c.func, SubnodeConfigs(c.props), c.pins.names)
  }

  /** The entries of all the children, one child after another. */
  function AllMaps(children: seq<Subnode>): seq<MapEntry>
    requires forall i :: 0 <= i < |children| ==> children[i].pins.PinList?
  {
    if children == [] then [] else ChildMaps(children[0]) + AllMaps(children[1..])
  }

  /**
   * `tegra_pinctrl_dt_node_to_map`: the children in order, the maps of all of
   * them, or the first child's error (the maps made so far are freed).
   */
  function NodeToMap(children: seq<Subnode>): (r: DtResult)
    ensures r.DtError? <==> exists i :: 0 <= i < |children| && children[i].pins.PinsError?
    ensures r.DtError? ==> exists i :: 0 <= i < |children| && children[i].pins == PinsError(r.code) &&
                                       forall j :: 0 <= j < i ==> children[j].pins.PinList?
    ensures r.Maps? ==> (forall i :: 0 <= i < |children| ==> children[i].pins.PinList?) && r.entries == AllMaps(children)
  {
    if children == [] then Maps([])
    else
      match SubnodeToMap(children[0])
      case DtError(code) => DtError(code)
      case Maps(first) =>
        match NodeToMap(children[1..])
        case DtError(code) =>
          assert forall i :: 0 <= i < |children| - 1 ==> children[1..][i] == children[i + 1];
          var i :| 0 <= i < |children| - 1 && children[1..][i].pins == PinsError(code) &&
                   forall j :: 0 <= j < i ==> children[1..][j].pins.PinList?;
          assert forall j :: 0 <= j < i + 1 ==> children[j].pins.PinList? by {
            forall j | 0 <= j < i + 1 ensures children[j].pins.PinList? {
              if j > 0 { assert children[j] == children[1..][j - 1]; }
            }
          }
          DtError(code)
        case Maps(rest) =>
          assert forall i :: 1 <= i < |children| ==> children[i] == children[1..][i - 1];
          Maps(first + rest)
  }

  /**
   * `strip_prefix`: the part after the first comma, or the whole string when
   * there is none.
   */
  function StripPrefix(s: string): (r: string)
    ensures ',' !in s ==> r == s
    ensures ',' in s ==> exists p :: p + [','] + r == s && ',' !in p
  {
    if ',' !in s then s
    else if s[0] == ',' then
      assert [] + [','] + s[1..] == s;
      s[1..]
    else
      var r := StripPrefix(s[1..]);
      var p :| p + [','] + r == s[1..] && ',' !in p;
      assert ([s[0]] + p) + [','] + r == s;
      r
  }
}
