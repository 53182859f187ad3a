# WireGuard endpoint update for a Hiddify configuration

A model of `scripts/update-ip-port.py`. The script loads `hiddify-config.json`
and picks an IPv6 address: the `BEST_IPV6` environment variable, or
`2606:4700:d0::1` when it is unset. It then walks the `outbounds` list in
order. Each outbound whose `type` is `"wireguard"` is changed in place:

- slot 1 of its `local_address` list becomes that address when the list has
  more than one element; otherwise a skip message is printed;
- `server_port` becomes a random port in [1024, 65535] in either case.

The file is written back only when at least one WireGuard outbound was seen.

Files:

- `json.dfy` (module `JsonValue`): parsed JSON values, and an `Option` type.
- `wireguard.dfy` (module `WireGuard`): the update rule for one outbound
  (`UpdateEntry`) and a reference definition of the whole loop (`Reconciled`).
  It also holds the loop itself, in place over an `array` of outbound
  dictionaries (`UpdateWireGuard`), and the lemmas about it.
- `script.dfy` (module `UpdateScript`): the address fallback and what
  `config.get('outbounds', [])` iterates over, including the inputs on which
  Python raises. `Run` is the whole script: exit on a bad file, abort, no
  changes, or the document that is saved.

Each outbound is a `map<string, Json>`, as the dictionary is in the script.
So "every other field is unchanged" is stated about every key of the map.
`generate_random_port` is the source of a sequence `ports` holding one draw per
WireGuard outbound, consumed in list order. The range that `randint(1024, 65535)`
guarantees is a precondition on those draws.

The script never sets `server` or `private_key`. It has no template fallback:
a missing or invalid file makes it exit with status 1. It does not add
`outbounds: []` to a document that lacks the key, and it draws the port itself.

## Model

| member | source | states |
|---|---|---|
| `WireGuard.IsWireGuard` | scripts/update-ip-port.py:22 | an outbound is selected exactly when it has a `type` that is a string equal to `"wireguard"`; an absent or non-string `type` is not selected |
| `WireGuard.HasAddressList` | scripts/update-ip-port.py:23 | the address branch is taken only when `local_address` is present, is a list and has at least two elements, so slot 1 exists. The skip branch is taken exactly when it is absent, not a list, or a list of at most one element |
| `WireGuard.UpdateEntry` | scripts/update-ip-port.py:23-29 | the updated outbound has the keys of the old one plus `server_port`, which holds the given port. A `local_address` list longer than one keeps its length, gets the address in slot 1 and keeps every other slot. Any other `local_address` (or its absence) is kept. All other keys keep their values, and the `type` and address-list tests give the same answers as before |
| `WireGuard.Reconciled` | scripts/update-ip-port.py:21-30 | the loop keeps the number of outbounds |
| `WireGuard.ReconciledAt` | scripts/update-ip-port.py:21-30 | at each index, a WireGuard outbound is updated with the port drawn after those of the WireGuard outbounds before it (and that draw exists); any other outbound is passed through unchanged |
| `WireGuard.ReconcileIsolation` | scripts/update-ip-port.py:21-22 | the length and order of `outbounds` are kept, and every outbound that is not WireGuard is exactly as before |
| `WireGuard.ReconcileAddressSlot` | scripts/update-ip-port.py:23-24 | for a WireGuard outbound whose `local_address` is a list of more than one element, slot 1 becomes the address, the length is kept and every other slot is unchanged |
| `WireGuard.ReconcileMalformedAddress` | scripts/update-ip-port.py:23-29 | for a WireGuard outbound whose `local_address` is absent, not a list, or a list of at most one element, `local_address` is left exactly as it was (present or absent), and `server_port` still gets the outbound's draw |
| `WireGuard.ReconciledPortsInRange` | scripts/update-ip-port.py:29 | when every draw lies in the range of `generate_random_port` (lines 5-6), every WireGuard outbound afterwards has an integer `server_port` in [1024, 65535] |
| `WireGuard.ReconcileOtherFieldsUntouched` | scripts/update-ip-port.py:21-30 | per outbound, whether it is WireGuard does not change, and only `server_port` can be added as a key (only to WireGuard outbounds). Every key other than `local_address` and `server_port`, such as `tag`, `server` or `private_key`, keeps its value |
| `WireGuard.UpdateEntryTwice` | scripts/update-ip-port.py:23-29 | running the loop body twice with the same address equals running it once with the second port |
| `WireGuard.ReconcileTwice` | scripts/update-ip-port.py:21-30 | a second pass keeps the number of WireGuard outbounds. Two passes with the same address equal one pass with the second pass's draws, so `local_address` after two passes is what it is after one |
| `WireGuard.RunsDifferOnlyInPort` | scripts/update-ip-port.py:29 | two passes with the same address and different draws give outbounds with the same keys and the same value at every key except `server_port` |
| `WireGuard.HasWireGuardIffCount` | scripts/update-ip-port.py:20-30 | there is a WireGuard outbound exactly when the loop draws at least one port |
| `WireGuard.UpdateWireGuard` | scripts/update-ip-port.py:19-30 | the in-place loop leaves the array equal to `Reconciled` of its old contents. `updated` is true exactly when some outbound is WireGuard, whatever shape its `local_address` has |
| `UpdateScript.BestIpv6` | scripts/update-ip-port.py:9 | the address is the environment value when `BEST_IPV6` is set (even to the empty string), otherwise exactly `2606:4700:d0::1` |
| `UpdateScript.OutboundEntries` | scripts/update-ip-port.py:21 | what `for outbound in config.get('outbounds', [])` visits. A document that is not an object raises (no `get`), and a missing `outbounds` iterates over `[]`. A null, number or boolean `outbounds` raises (not iterable). A string or object `outbounds` iterates nothing when it is empty and raises when it is not, because its elements have no `get`. A list raises exactly when some element is not an object; otherwise the visited outbounds are its elements, in order |
| `UpdateScript.WithOutbounds` | scripts/update-ip-port.py:33-35 | the document written back has the same top-level keys plus `outbounds`, and every other top-level key keeps its value. `outbounds` is written as a list whose elements are the given outbounds, in order |
| `UpdateScript.EntriesRoundTrip` | scripts/update-ip-port.py:21-35 | reading back the written outbounds gives the outbounds that were written. Writing back the unchanged outbounds of a list-valued `outbounds` reproduces the document |
| `UpdateScript.Run` | scripts/update-ip-port.py:9-38 | a missing or invalid file ends in the exit-1 outcome, and an `outbounds` Python cannot iterate as dictionaries ends in an abort. Otherwise the document is saved exactly when some outbound is WireGuard, and what is saved is the document with its outbounds replaced by `Reconciled` of them under the chosen address. A document without `outbounds` leads to no changes and no save. Every WireGuard outbound of a saved document has a `server_port` in [1024, 65535] |

## Left out

- File I/O and JSON parsing and serialisation (`open`, `json.load`, `json.dump`): the parse result is an input (`LoadResult`) and the save is the `Saved` outcome. Indentation and the key order of the written file are not modelled, because a `map` has no order.
- Other errors when opening the file (a permission error, for example) are not caught by the script and are not modelled; the load outcome is either a parsed document or missing/invalid.
- `random.randint`: the ports are given as a sequence of draws, each required to lie in [1024, 65535]; randomness itself is not modelled.
- `os.getenv`: the variable is given as an `Option<string>`.
- `print` messages (the skip diagnostic with the outbound's `tag`, the completion and no-change lines) are not modelled; the skip branch is a comment in `UpdateWireGuard`.
- Exit codes: `exit(1)` is the `ExitInvalidConfig` outcome; an uncaught Python exception is the `Aborted` outcome.
- UpdateScript.Run: when an element of the outbounds list is not an object, Python raises at that element, after mutating earlier elements in memory. The model detects this before the loop. No file is written either way, so only the printed lines differ.
- JSON floating-point numbers are not modelled; numbers are integers.
