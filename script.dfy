/** The script around the loop: the address it writes, what it iterates over,
    and whether it saves, exits or raises. Reading and writing the file are
    represented by a load outcome given as input and a save outcome returned. */
module UpdateScript {
  import opened JsonValue
  import opened WireGuard

  /** Fallback used when `BEST_IPV6` is not set. */
  const DefaultIpv6: string := "2606:4700:d0::1"

  /** `os.getenv('BEST_IPV6', '2606:4700:d0::1')`: the environment value when
      the variable is set (even to the empty string), otherwise the fallback. */
  function BestIpv6(env: Option<string>): (r: string)
    ensures env.Some? ==> r == env.value
    ensures env.None? ==> r == "2606:4700:d0::1"
  {
    match env
    case Some(v) => v
    case None => DefaultIpv6
  }

  /** Result of opening and parsing `hiddify-config.json`. */
  datatype LoadResult = Loaded(config: Json) | InvalidOrMissing

  /** How a run ends. */
  datatype Outcome =
    | ExitInvalidConfig      // parse or open failed: message and `exit(1)`
    | Aborted                // Python raises while looking up or iterating the outbounds
    | NoChanges              // nothing updated: "No valid changes were made."
    | Saved(config: Json)    // the document written back with `json.dump`

  /** The outbound dictionaries `for outbound in config.get('outbounds', [])`
      visits, or None when that statement raises: the document is not an
      object, `outbounds` is null, a number or a boolean (not iterable), a
      non-empty string or object (its elements have no `get`), or a list with
      an element that is not an object. A missing key iterates over `[]`. */
  function OutboundEntries(config: Json): (r: Option<seq<Outbound>>)
    ensures !config.Obj? ==> r.None?
    ensures config.Obj? && "outbounds" !in config.fields ==> r == Some([])
    ensures config.Obj? && "outbounds" in config.fields ==>
              var v := config.fields["outbounds"];
              ((v.Null? || v.Num? || v.Bool?) ==> r.None?) &&
              ((v.Str? || v.Obj?) ==> (r.Some? <==> v == Str("") || v == Obj(map[])) && (r.Some? ==> r.value == [])) &&
              (v.Arr? ==>
                 (r.Some? <==> forall i :: 0 <= i < |v.items| ==> v.items[i].Obj?) &&
                 (r.Some? ==> |r.value| == |v.items| && forall i :: 0 <= i < |v.items| ==> v.items[i] == Obj(r.value[i])))
  {
    match config
    case Obj(top) =>
      if "outbounds" !in top then Some([])
      else (
        match top["outbounds"]
        case Arr(items) =>
          if forall i :: 0 <= i < |items| ==> items[i].Obj?
          then Some(seq(|items|, i requires 0 <= i < |items| => items[i].fields))
          else None
        case Str(text) => if text == "" then Some([]) else None
        case Obj(m) => if m == map[] then Some([]) else None
        case _ => None)
    case _ => None
  }

  /** The document with its `outbounds` list replaced by `entries`; every other
      top-level key is kept. */
  function WithOutbounds(config: Json, entries: seq<Outbound>): (r: Json)
    requires config.Obj?
    ensures r.Obj? && r.fields.Keys == config.fields.Keys + {"outbounds"}
    ensures forall k :: k in config.fields && k != "outbounds" ==> r.fields[k] == config.fields[k]
    ensures var written := r.fields["outbounds"];
            written.Arr? && |written.items| == |entries| &&
            forall i :: 0 <= i < |entries| ==> written.items[i] == Obj(entries[i])
  {
    Obj(config.fields["outbounds" := Arr(seq(|entries|, i requires 0 <= i < |entries| => Obj(entries[i])))])
  }

  /** Writing outbounds back and iterating them again gives the same outbounds;
      writing back the outbounds of a list-valued `outbounds` unchanged gives
      the original document. */
  lemma EntriesRoundTrip(config: Json, entries: seq<Outbound>)
    requires config.Obj?
    ensures OutboundEntries(WithOutbounds(config, entries)) == Some(entries)
    ensures ("outbounds" in config.fields && config.fields["outbounds"].Arr? && OutboundEntries(config) == Some(entries))
              ==> WithOutbounds(config, entries) == config
  {
    var written := WithOutbounds(config, entries);
    var items := written.fields["outbounds"].items;
    assert forall i :: 0 <= i < |items| ==> items[i] == Obj(entries[i]);
    assert seq(|items|, i requires 0 <= i < |items| => items[i].fields) == entries;
    if "outbounds" in config.fields && config.fields["outbounds"].Arr? && OutboundEntries(config) == Some(entries) {
      var original := config.fields["outbounds"].items;
      assert |original| == |entries|;
      assert forall i :: 0 <= i < |original| ==> original[i] == Obj(entries[i]);
      assert items == original;
      assert written.fields == config.fields;
    }
  }

  /** A whole run of the script. `env` is the value of `BEST_IPV6`, `ports` the
      successive draws of `generate_random_port`, each within its range. */
  method Run(load: LoadResult, env: Option<string>, ports: seq<int>) returns (outcome: Outcome)
    requires AllInPortRange(ports)
    requires load.Loaded? && OutboundEntries(load.config).Some? ==>
               WireGuardCount(OutboundEntries(load.config).value) <= |ports|
    ensures load.InvalidOrMissing? ==> outcome == ExitInvalidConfig
    ensures load.Loaded? && OutboundEntries(load.config).None? ==> outcome == Aborted
    ensures load.Loaded? && OutboundEntries(load.config).Some? ==>
              var entries := OutboundEntries(load.config).value;
              (outcome == NoChanges || outcome.Saved?) &&
              (outcome.Saved? <==> HasWireGuard(entries)) &&
              (outcome.Saved? ==>
                 load.config.Obj? &&
                 outcome.config == WithOutbounds(load.config, Reconciled(entries, BestIpv6(env), ports)))
    ensures load.Loaded? && load.config.Obj? && "outbounds" !in load.config.fields ==> outcome == NoChanges
    ensures outcome.Saved? ==>
              OutboundEntries(outcome.config).Some? &&
              var saved := OutboundEntries(outcome.config).value;
              forall i :: 0 <= i < |saved| && IsWireGuard(saved[i]) ==>
                "server_port" in saved[i] && saved[i]["server_port"].Num? &&
                InPortRange(saved[i]["server_port"].n)
  {
    if load.InvalidOrMissing? {
      return ExitInvalidConfig;
    }
    var entries := OutboundEntries(load.config);
    if entries.None? {
      return Aborted;
    }
    var bestIpv6 := BestIpv6(env);
    var outbounds := new Outbound[|entries.value|](i requires 0 <= i < |entries.value| => entries.value[i]);
    assert outbounds[..] == entries.value;
    var updated := UpdateWireGuard(outbounds, bestIpv6, ports);
    if updated {
      HasWireGuardIffCount(entries.value);
      assert load.config.Obj?;
      var result := outbounds[..];
      EntriesRoundTrip(load.config, result);
      ReconciledPortsInRange(entries.value, bestIpv6, ports);
      outcome := Saved(WithOutbounds(load.config, result));
    } else {
      outcome := NoChanges;
    }
  }
}
