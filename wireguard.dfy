/** The WireGuard outbound update loop: every outbound whose `type` is
    "wireguard" gets slot 1 of its `local_address` list replaced by the chosen
    IPv6 address (when that list has more than one element) and a fresh
    `server_port`; every other outbound and every other field is left alone. */
module WireGuard {
  import opened JsonValue

  /** One outbound dictionary of the configuration. */
  type Outbound = map<string, Json>

  const MinPort: int := 1024
  const MaxPort: int := 65535

  /** The range `generate_random_port` draws from, both ends included. */
  predicate InPortRange(p: int) {
    MinPort <= p <= MaxPort
  }

  /** Every candidate port lies in the range of `generate_random_port`. */
  predicate AllInPortRange(ports: seq<int>) {
    forall i :: 0 <= i < |ports| ==> InPortRange(ports[i])
  }

  /** `outbound.get('type') == 'wireguard'`: only a string `type` equal to
      "wireguard" selects the outbound; an absent or non-string `type` does not. */
  predicate IsWireGuard(o: Outbound): (b: bool)
    ensures b <==> "type" in o && o["type"].Str? && o["type"].s == "wireguard"
  {
    "type" in o && o["type"] == Str("wireguard")
  }

  /** `local_address` is present, is a list, and has more than one element, so
      that slot 1 exists; otherwise the outbound takes the skip branch. */
  predicate HasAddressList(o: Outbound): (b: bool)
    ensures b ==> "local_address" in o && o["local_address"].Arr? && 1 < |o["local_address"].items|
    ensures !b ==> "local_address" !in o || !o["local_address"].Arr? || |o["local_address"].items| <= 1
  {
    "local_address" in o && o["local_address"].Arr? && |o["local_address"].items| > 1
  }

  /** What the loop body does to one WireGuard outbound with the given port. */
  function UpdateEntry(o: Outbound, bestIpv6: string, port: int): (r: Outbound)
    ensures r.Keys == o.Keys + {"server_port"}
    ensures r["server_port"] == Num(port)
    ensures forall k :: k in o && k != "local_address" && k != "server_port" ==> r[k] == o[k]
    ensures HasAddressList(o) ==>
              var before, after := o["local_address"].items, r["local_address"];
              after.Arr? && |after.items| == |before| && after.items[1] == Str(bestIpv6) &&
              forall j :: 0 <= j < |before| && j != 1 ==> after.items[j] == before[j]
    ensures !HasAddressList(o) && "local_address" in o ==> r["local_address"] == o["local_address"]
    ensures IsWireGuard(r) == IsWireGuard(o) && HasAddressList(r) == HasAddressList(o)
  {
    var withAddress :=
      if HasAddressList(o)
      then o["local_address" := Arr(o["local_address"].items[1 := Str(bestIpv6)])]
      else o;
    withAddress["server_port" := Num(port)]
  }

  /** Number of WireGuard outbounds, i.e. the number of ports the loop draws. */
  function WireGuardCount(s: seq<Outbound>): (n: nat)
    ensures n <= |s|
  {
    if s == [] then 0 else (if IsWireGuard(s[0]) then 1 else 0) + WireGuardCount(s[1..])
  }

  predicate HasWireGuard(s: seq<Outbound>) {
    exists i :: 0 <= i < |s| && IsWireGuard(s[i])
  }

  /** Reference definition of the loop: walks the outbounds in order, consuming
      one port from `ports` per WireGuard outbound. */
  function Reconciled(s: seq<Outbound>, bestIpv6: string, ports: seq<int>): (r: seq<Outbound>)
    requires WireGuardCount(s) <= |ports|
    ensures |r| == |s|
  {
    if s == [] then []
    else if IsWireGuard(s[0]) then [UpdateEntry(s[0], bestIpv6, ports[0])] + Reconciled(s[1..], bestIpv6, ports[1..])
    else [s[0]] + Reconciled(s[1..], bestIpv6, ports)
  }

  lemma {:induction false} CountAppend(a: seq<Outbound>, b: seq<Outbound>)
    ensures WireGuardCount(a + b) == WireGuardCount(a) + WireGuardCount(b)
  {
    if a == [] {
      assert a + b == b;
    } else {
      assert (a + b)[1..] == a[1..] + b;
      CountAppend(a[1..], b);
    }
  }

  /** The outbounds before index `i` draw at most as many ports as all of them. */
  lemma CountPrefix(s: seq<Outbound>, i: nat)
    requires i <= |s|
    ensures WireGuardCount(s[..i]) <= WireGuardCount(s)
    ensures i < |s| ==> WireGuardCount(s[..i+1]) == WireGuardCount(s[..i]) + (if IsWireGuard(s[i]) then 1 else 0)
  {
    assert s == s[..i] + s[i..];
    CountAppend(s[..i], s[i..]);
    if i < |s| {
      assert s[..i+1] == s[..i] + [s[i]];
      CountAppend(s[..i], [s[i]]);
      assert [s[i]][1..] == [];
    }
  }

  lemma {:induction false} HasWireGuardIffCount(s: seq<Outbound>)
    ensures HasWireGuard(s) <==> WireGuardCount(s) > 0
  {
    if s != [] {
      HasWireGuardIffCount(s[1..]);
      if HasWireGuard(s[1..]) {
        var j :| 0 <= j < |s[1..]| && IsWireGuard(s[1..][j]);
        assert IsWireGuard(s[j + 1]);
      }
      if HasWireGuard(s) && !IsWireGuard(s[0]) {
        var j :| 0 <= j < |s| && IsWireGuard(s[j]);
        assert IsWireGuard(s[1..][j - 1]);
      }
    }
  }

  /** Appending one outbound to the input appends its updated form to the output. */
  lemma {:induction false} ReconciledSnoc(s: seq<Outbound>, o: Outbound, bestIpv6: string, ports: seq<int>)
    requires WireGuardCount(s + [o]) <= |ports|
    ensures WireGuardCount(s) <= |ports|
    ensures IsWireGuard(o) ==> WireGuardCount(s) < |ports|
    ensures Reconciled(s + [o], bestIpv6, ports) ==
            Reconciled(s, bestIpv6, ports) +
            [if IsWireGuard(o) then UpdateEntry(o, bestIpv6, ports[WireGuardCount(s)]) else o]
  {
    CountAppend(s, [o]);
    assert [o][1..] == [];
    if s == [] {
      assert s + [o] == [o];
    } else {
      assert (s + [o])[1..] == s[1..] + [o];
      if IsWireGuard(s[0]) {
        ReconciledSnoc(s[1..], o, bestIpv6, ports[1..]);
      } else {
        ReconciledSnoc(s[1..], o, bestIpv6, ports);
      }
    }
  }

  /** Position by position: a WireGuard outbound at index `i` is updated with the
      port drawn after the WireGuard outbounds before it; any other outbound is
      passed through as it was. */
  lemma {:induction false} ReconciledAt(s: seq<Outbound>, bestIpv6: string, ports: seq<int>, i: nat)
    requires WireGuardCount(s) <= |ports|
    requires i < |s|
    ensures IsWireGuard(s[i]) ==>
              WireGuardCount(s[..i]) < |ports| &&
              Reconciled(s, bestIpv6, ports)[i] == UpdateEntry(s[i], bestIpv6, ports[WireGuardCount(s[..i])])
    ensures !IsWireGuard(s[i]) ==> Reconciled(s, bestIpv6, ports)[i] == s[i]
  {
    if i > 0 {
      var rest := if IsWireGuard(s[0]) then ports[1..] else ports;
      ReconciledAt(s[1..], bestIpv6, rest, i - 1);
      assert s[..i] == [s[0]] + s[1..][..i - 1];
      CountAppend([s[0]], s[1..][..i - 1]);
      assert [s[0]][1..] == [];
    }
  }

  /** Outbounds that are not WireGuard come out exactly as they went in, and
      the list keeps its length and its order. */
  lemma {:induction false} ReconcileIsolation(s: seq<Outbound>, bestIpv6: string, ports: seq<int>)
    requires WireGuardCount(s) <= |ports|
    ensures |Reconciled(s, bestIpv6, ports)| == |s|
    ensures forall i :: 0 <= i < |s| && !IsWireGuard(s[i]) ==> Reconciled(s, bestIpv6, ports)[i] == s[i]
  {
    forall i | 0 <= i < |s| && !IsWireGuard(s[i])
      ensures Reconciled(s, bestIpv6, ports)[i] == s[i]
    {
      ReconciledAt(s, bestIpv6, ports, i);
    }
  }

  /** `after` is `before` with slot 1 of its `local_address` list set to
      `bestIpv6`: same length, every other slot unchanged. */
  predicate SlotOneRewritten(before: Outbound, after: Outbound, bestIpv6: string)
    requires HasAddressList(before)
  {
    var beforeItems := before["local_address"].items;
    "local_address" in after && after["local_address"].Arr? &&
    var afterItems := after["local_address"].items;
    |afterItems| == |beforeItems| && afterItems[1] == Str(bestIpv6) &&
    forall j :: 0 <= j < |beforeItems| && j != 1 ==> afterItems[j] == beforeItems[j]
  }

  /** A WireGuard outbound whose `local_address` is a list of more than one
      element gets slot 1 rewritten and nothing else in the list changes. */
  lemma {:induction false} ReconcileAddressSlot(s: seq<Outbound>, bestIpv6: string, ports: seq<int>)
    requires WireGuardCount(s) <= |ports|
    ensures forall i :: 0 <= i < |s| && IsWireGuard(s[i]) && HasAddressList(s[i]) ==>
              SlotOneRewritten(s[i], Reconciled(s, bestIpv6, ports)[i], bestIpv6)
  {
    forall i | 0 <= i < |s| && IsWireGuard(s[i]) && HasAddressList(s[i])
      ensures SlotOneRewritten(s[i], Reconciled(s, bestIpv6, ports)[i], bestIpv6)
    {
      ReconciledAt(s, bestIpv6, ports, i);
    }
  }

  /** A WireGuard outbound whose `local_address` is absent, not a list, or a list
      of at most one element keeps `local_address` exactly as it was (present or
      absent), yet still gets the next port. */
  lemma ReconcileMalformedAddress(s: seq<Outbound>, bestIpv6: string, ports: seq<int>, i: nat)
    requires WireGuardCount(s) <= |ports|
    requires i < |s| && IsWireGuard(s[i]) && !HasAddressList(s[i])
    ensures WireGuardCount(s[..i]) < |ports|
    ensures var r := Reconciled(s, bestIpv6, ports)[i];
            ("local_address" in r <==> "local_address" in s[i]) &&
            ("local_address" in s[i] ==> r["local_address"] == s[i]["local_address"]) &&
            "server_port" in r && r["server_port"] == Num(ports[WireGuardCount(s[..i])])
  {
    ReconciledAt(s, bestIpv6, ports, i);
  }

  /** After the loop every WireGuard outbound has a `server_port` in [1024, 65535]. */
  lemma {:induction false} ReconciledPortsInRange(s: seq<Outbound>, bestIpv6: string, ports: seq<int>)
    requires WireGuardCount(s) <= |ports| && AllInPortRange(ports)
    ensures forall i :: 0 <= i < |s| && IsWireGuard(Reconciled(s, bestIpv6, ports)[i]) ==>
              var r := Reconciled(s, bestIpv6, ports)[i];
              "server_port" in r && r["server_port"].Num? && InPortRange(r["server_port"].n)
  {
    forall i | 0 <= i < |s| && IsWireGuard(Reconciled(s, bestIpv6, ports)[i])
      ensures var r := Reconciled(s, bestIpv6, ports)[i];
              "server_port" in r && r["server_port"].Num? && InPortRange(r["server_port"].n)
    {
      ReconciledAt(s, bestIpv6, ports, i);
      CountPrefix(s, i);
    }
  }

  /** The loop changes only `local_address` and `server_port` of WireGuard
      outbounds: every other key keeps its value, only `server_port` can be
      added, and which outbounds are WireGuard does not change. */
  lemma {:induction false} ReconcileOtherFieldsUntouched(s: seq<Outbound>, bestIpv6: string, ports: seq<int>)
    requires WireGuardCount(s) <= |ports|
    ensures forall i :: 0 <= i < |s| ==>
              var r := Reconciled(s, bestIpv6, ports)[i];
              IsWireGuard(r) == IsWireGuard(s[i]) &&
              r.Keys == (if IsWireGuard(s[i]) then s[i].Keys + {"server_port"} else s[i].Keys) &&
              forall k :: k in s[i] && k != "local_address" && k != "server_port" ==> r[k] == s[i][k]
  {
    forall i | 0 <= i < |s|
      ensures var r := Reconciled(s, bestIpv6, ports)[i];
              IsWireGuard(r) == IsWireGuard(s[i]) &&
              r.Keys == (if IsWireGuard(s[i]) then s[i].Keys + {"server_port"} else s[i].Keys) &&
              forall k :: k in s[i] && k != "local_address" && k != "server_port" ==> r[k] == s[i][k]
    {
      ReconciledAt(s, bestIpv6, ports, i);
    }
  }

  /** Running the loop body twice with the same address is running it once with
      the second port. */
  lemma UpdateEntryTwice(o: Outbound, bestIpv6: string, p1: int, p2: int)
    ensures UpdateEntry(UpdateEntry(o, bestIpv6, p1), bestIpv6, p2) == UpdateEntry(o, bestIpv6, p2)
  {
    var twice, direct := UpdateEntry(UpdateEntry(o, bestIpv6, p1), bestIpv6, p2), UpdateEntry(o, bestIpv6, p2);
    if HasAddressList(o) {
      assert twice["local_address"].items == direct["local_address"].items;
    }
  }

  /** A second pass with the same address gives the same result as a single
      pass with the second pass's ports: `local_address` comes out the same on
      every run, only `server_port` depends on the draws. */
  lemma {:induction false} ReconcileTwice(s: seq<Outbound>, bestIpv6: string, p1: seq<int>, p2: seq<int>)
    requires WireGuardCount(s) <= |p1| && WireGuardCount(s) <= |p2|
    ensures WireGuardCount(Reconciled(s, bestIpv6, p1)) == WireGuardCount(s)
    ensures Reconciled(Reconciled(s, bestIpv6, p1), bestIpv6, p2) == Reconciled(s, bestIpv6, p2)
  {
    if s != [] {
      var r := Reconciled(s, bestIpv6, p1);
      if IsWireGuard(s[0]) {
        ReconcileTwice(s[1..], bestIpv6, p1[1..], p2[1..]);
        assert r[1..] == Reconciled(s[1..], bestIpv6, p1[1..]);
        UpdateEntryTwice(s[0], bestIpv6, p1[0], p2[0]);
      } else {
        ReconcileTwice(s[1..], bestIpv6, p1, p2);
        assert r[1..] == Reconciled(s[1..], bestIpv6, p1);
      }
    }
  }

  /** Two runs with the same address and different draws agree on everything
      except the value of `server_port`. */
  lemma {:induction false} RunsDifferOnlyInPort(s: seq<Outbound>, bestIpv6: string, p1: seq<int>, p2: seq<int>)
    requires WireGuardCount(s) <= |p1| && WireGuardCount(s) <= |p2|
    ensures forall i :: 0 <= i < |s| ==>
              var r1, r2 := Reconciled(s, bestIpv6, p1)[i], Reconciled(s, bestIpv6, p2)[i];
              r1.Keys == r2.Keys && forall k :: k in r1 && k != "server_port" ==> r1[k] == r2[k]
  {
    forall i | 0 <= i < |s|
      ensures var r1, r2 := Reconciled(s, bestIpv6, p1)[i], Reconciled(s, bestIpv6, p2)[i];
              r1.Keys == r2.Keys && forall k :: k in r1 && k != "server_port" ==> r1[k] == r2[k]
    {
      ReconciledAt(s, bestIpv6, p1, i);
      ReconciledAt(s, bestIpv6, p2, i);
    }
  }

  /** The loop of the script, in place over the outbound list. `ports` stands
      for the successive results of `generate_random_port`. Returns `updated`. */
  method UpdateWireGuard(outbounds: array<Outbound>, bestIpv6: string, ports: seq<int>) returns (updated: bool)
    requires WireGuardCount(outbounds[..]) <= |ports|
    modifies outbounds
    ensures outbounds[..] == Reconciled(old(outbounds[..]), bestIpv6, ports)
    ensures updated == HasWireGuard(old(outbounds[..]))
  {
    ghost var s := outbounds[..];
    updated := false;
    var drawn := 0;
    for i := 0 to outbounds.Length
      invariant drawn == WireGuardCount(s[..i]) <= WireGuardCount(s) <= |ports|
      invariant outbounds[..i] == Reconciled(s[..i], bestIpv6, ports)
      invariant forall j :: i <= j < outbounds.Length ==> outbounds[j] == s[j]
      invariant updated == HasWireGuard(s[..i])
    {
      CountPrefix(s, i);
      CountPrefix(s, i + 1);
      assert s[..i + 1] == s[..i] + [s[i]];
      ReconciledSnoc(s[..i], s[i], bestIpv6, ports);
      HasWireGuardSnoc(s[..i], s[i]);
      var outbound := outbounds[i];
      if IsWireGuard(outbound) {
        if HasAddressList(outbound) {
          var addresses := outbound["local_address"].items;
          outbound := outbound["local_address" := Arr(addresses[1 := Str(bestIpv6)])];
          updated := true;
        }
        // otherwise the script only prints a skip diagnostic
        outbound := outbound["server_port" := Num(ports[drawn])];
        outbounds[i] := outbound;
        drawn := drawn + 1;
        updated := true;
      }
      assert outbounds[..i + 1] == outbounds[..i] + [outbounds[i]];
    }
    assert s[..outbounds.Length] == s;
  }

  lemma HasWireGuardSnoc(s: seq<Outbound>, o: Outbound)
    ensures HasWireGuard(s + [o]) <==> HasWireGuard(s) || IsWireGuard(o)
  {
    if HasWireGuard(s) {
      var j :| 0 <= j < |s| && IsWireGuard(s[j]);
      assert (s + [o])[j] == s[j];
    }
    if IsWireGuard(o) {
      assert (s + [o])[|s|] == o;
    }
    if HasWireGuard(s + [o]) && !IsWireGuard(o) {
      var j :| 0 <= j < |s + [o]| && IsWireGuard((s + [o])[j]);
      assert j < |s| && (s + [o])[j] == s[j];
    }
  }
}
