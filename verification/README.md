# generate_compose — a verified model of the Compose manifest generator

`scripts/generate_compose.py` writes one docker-compose file per host of a GPU
cluster. Each host is described by an ordered dict of GPU selectors, such as
`cuda:0` or `cuda:2-4`, mapped to model identifiers. A catalog maps model
identifiers to docker images. For every host the generator:

- starts a fresh manifest with version `3.9` and an empty `services` dict;
- resets the port counter to the base port;
- walks the (selector, model) pairs in insertion order. A model with no
  image is reported and skipped. Otherwise the selector is expanded into
  device indices, and one service per device is stored under its name. The
  counter advances by one for each service.

This project models that core in Dafny:

| file | models |
|---|---|
| `decimal.dfy` | `int()` on ASCII digit runs and `str()` on integers, with their round trip |
| `selector.dfy` | the selector pattern and `expand`, as a hand-written parser returning `Option<seq<nat>>` (`None` is the `ValueError`) |
| `service.dfy` | `make_service`: the service name and the service record, with decoders that read a record's port, GPU and model back |
| `dict.dfy` | Python's insertion-ordered `dict` with string keys, as a sequence of pairs (lookup, item assignment) |
| `compose.dfy` | the per-host loop as the method `AssembleHost`, proved equal to the specification function `HostSpec`, which the walk and dict lemmas describe; the loop over hosts as `GenerateAll` |
| `scenarios.dfy` | concrete selectors and hosts worked through the model |

The per-host loop is imperative in the source, so it is a method.
`compose["services"]` and `port` are loop variables: the loop reassigns the
services dict, held as a value, after each item assignment and advances the
port counter. Its contract ties the result to `HostSpec`, and the lemmas about
`HostSpec` state what the generator promises. `expand` and `make_service` are pure
expressions in the source, so they are functions.

Two consequences of the code are worth stating outright:

- a reversed range `cuda:4-2` expands to no devices at all; it raises no
  error;
- a colliding service name silently replaces the earlier service, at the
  earlier service's position in the dict, while the port counter still
  advances.

## Model

| member | source | states |
|---|---|---|
| Selector.Range | scripts/generate_compose.py:26 | The range has hi-lo+1 elements when lo <= hi and none otherwise; element k is lo+k, so the range is strictly ascending. |
| Selector.DigitRun | scripts/generate_compose.py:18 | The greedy digit run at i consists of digits only, and it stops at the end of the token or at a non-digit. |
| Selector.Expand | scripts/generate_compose.py:21-26 | An accepted token yields consecutive ascending device indices. |
| Selector.ExpandSingle | scripts/generate_compose.py:21-26 | `cuda:` followed by any numeral (leading zeros allowed) yields exactly the one index it denotes. |
| Selector.ExpandRange | scripts/generate_compose.py:21-26 | `cuda:A-B` yields the range from A to B inclusive, which is empty when B < A. |
| Selector.ExpandOnlyAcceptsGrammar | scripts/generate_compose.py:18-24 | Every token `expand` accepts is `cuda:` plus a numeral, optionally followed by `-` plus a numeral, with nothing before or after. |
| Selector.ExpandAcceptsExactlyGrammar | scripts/generate_compose.py:18-24 | `expand` succeeds if and only if the whole token matches the selector grammar; every other token raises. |
| Scenarios.ExpandSingleDevice | scripts/generate_compose.py:21-26 | `cuda:5` gives [5]. |
| Scenarios.ExpandAscendingRange | scripts/generate_compose.py:21-26 | `cuda:2-4` gives [2, 3, 4]. |
| Scenarios.ExpandFirstTwo | scripts/generate_compose.py:21-26 | `cuda:0-1` gives [0, 1]. |
| Scenarios.ExpandReversedRange | scripts/generate_compose.py:25-26 | `cuda:4-2` is accepted and gives the empty list. |
| Scenarios.ExpandLeadingZeros | scripts/generate_compose.py:25 | `cuda:007` gives [7]. |
| Scenarios.ExpandRejects | scripts/generate_compose.py:18-24 | Non-digits, surrounding whitespace, commas, minus signs, a dangling dash, a second range, another prefix and a bare `cuda:` all raise. |
| Decimal.Show | scripts/generate_compose.py:47 | The decimal form of a natural is a numeral without spurious leading zeros, and it reads back as that natural. |
| Decimal.ShowInt | scripts/generate_compose.py:40 | The decimal form of any integer, negative ones included, reads back as that integer. |
| Decimal.ShowValue | scripts/generate_compose.py:47 | A numeral without spurious leading zeros is the decimal form of its own value. |
| Decimal.ParseNatOnlyShow | scripts/generate_compose.py:47 | A string reads back as n if and only if it is `str(n)`: padded numerals are refused. |
| Decimal.ParseIntOnlyShowInt | scripts/generate_compose.py:40 | A string reads back as the integer n if and only if it is `str(n)`: padded numerals and `-0` are refused. |
| Service.LastSegmentIsSuffix | scripts/generate_compose.py:35 | The last segment is the suffix of the identifier after its last `/` (the whole identifier when it has none), and it contains no `/`. |
| Service.DotsToDashesSpec | scripts/generate_compose.py:35 | Replacing dots keeps the length; every `.` becomes `-`, and every other character is kept. |
| Service.BaseNameClean | scripts/generate_compose.py:35 | The model part of a service name has neither `/` nor `.`. |
| Service.LastSegmentAfterSlash | scripts/generate_compose.py:35 | Whatever precedes the last `/`, the segment after it is the last segment. |
| Service.LastSegmentWhole | scripts/generate_compose.py:35 | An identifier without `/` is its own last segment. |
| Service.DotsToDashesNoDots | scripts/generate_compose.py:35 | A name without `.` is left unchanged. |
| Service.ServiceNameInjective | scripts/generate_compose.py:35 | Two service names are equal if and only if the base names and the GPU indices are both equal. |
| Scenarios.SlashPrefixCollides | scripts/generate_compose.py:35 | `org/m` and `m` have the same base name, so their services collide. |
| Service.HostPortRoundTrip | scripts/generate_compose.py:40 | A port mapping built from any host port reads back as that port. |
| Service.HostPortOnlyMapping | scripts/generate_compose.py:40 | A mapping reads back as port p if and only if it is exactly `"<p>:8000"`. |
| Service.DecodedFieldsExact | scripts/generate_compose.py:40-54 | A record that publishes port p, reserves GPU g and serves model m has exactly the ports `["<p>:8000"]`, the one nvidia device with ids `[str(g)]` and capabilities `["gpu"]`, and the environment `["MODEL_ID=<m>"]`. |
| Service.MakeService | scripts/generate_compose.py:29-55 | The key is the service name and equals `container_name`. The record has the given image, restart `unless-stopped`, exactly one mapping that publishes the given port, exactly one nvidia device reservation for exactly the given GPU with capability `gpu`, and an environment of exactly one entry that names the model. With `DecodedFieldsExact` this fixes the record's text completely. |
| Scenarios.PlainService | scripts/generate_compose.py:29-55 | For a plain model name, device 0 or 1 and any port, the full literal record that `make_service` returns. |
| Scenarios.FirstDeviceService | scripts/generate_compose.py:29-55 | For a plain model name on device 0, the key is `<model>-gpu0` and the record publishes `<port>:8000`, reserves nvidia device "0" with capability `gpu` and sets `MODEL_ID=<model>`. |
| Dict.Lookup | scripts/generate_compose.py:78 | A key is absent if and only if lookup finds nothing. |
| Dict.Put | scripts/generate_compose.py:78 | Assignment keeps the key order, appending only a new key. Afterwards the key maps to the new value, and every other key maps to what it mapped to before. |
| Dict.PutNewKey | scripts/generate_compose.py:78 | Assigning a new key appends the entry at the end. |
| Dict.PutKeepsOthers | scripts/generate_compose.py:78 | Assignment leaves every entry under another key at its position. |
| Dict.LookupAt | scripts/generate_compose.py:78 | With distinct keys, each entry is what lookup finds under its key. |
| Dict.PutAllLookup | scripts/generate_compose.py:78 | After a series of assignments, each key holds the value of its last assignment, and keys never assigned are absent. |
| Dict.PutAllKeysDistinct | scripts/generate_compose.py:78 | A series of assignments never stores a key twice. |
| Dict.PutAllSnoc | scripts/generate_compose.py:78 | One more assignment after a series of assignments is one more item assignment on the dict they built. |
| Dict.FirstOccurrencesSpec | scripts/generate_compose.py:78 | The first occurrences of a key sequence hold each of its keys exactly once and nothing else. |
| Dict.PutAllKeyOrder | scripts/generate_compose.py:78 | After a series of assignments the keys stand in the order of their first assignment; a reassigned key keeps its first position. |
| Dict.PutAllDistinct | scripts/generate_compose.py:78 | Assignments of pairwise different keys leave exactly those entries, in order. |
| Compose.Emit | scripts/generate_compose.py:76-77 | One planned service per device, in device order, each for the given model and image. |
| Compose.LastWriter | scripts/generate_compose.py:78 | The index of the last planned service under a name: it carries that name and no later one does; -1 if there is none. |
| Compose.AssembleHost | scripts/generate_compose.py:68-79 | For one host, the nested loops with the port counter and the services dict updated in place produce exactly `HostSpec`: the manifest of the walk, or the error of the first bad selector. |
| Compose.AddServices | scripts/generate_compose.py:76-79 | The device loop stores one more service per device and advances the port by the number of devices. |
| Compose.GenerateAll | scripts/generate_compose.py:68-81 | File k is named after host k and holds that host's manifest, built from scratch from its own pairs. A bad selector stops the run at its host, after the earlier hosts' files. Without one, every host gets a file. |
| Compose.ServicesAsPutAll | scripts/generate_compose.py:70-79 | The services dict of a host is what assigning the built services one after another, each on its own port, leaves in a fresh dict. |
| Compose.ServicesSnoc | scripts/generate_compose.py:77-78 | One more planned service is one more item assignment under its name. |
| Compose.HostSpecAfterFailure | scripts/generate_compose.py:76 | Once a selector has raised, the host's outcome is that selector's error, whatever pairs follow. |
| Compose.WalkStopsAtFailure | scripts/generate_compose.py:76 | After a selector has raised, later pairs change nothing. |
| Compose.MissingModelContributesNothing | scripts/generate_compose.py:72-76 | A pair whose model has no image adds no service and raises nothing, even for a malformed selector. The walk's services and error are those of the walk without that pair. |
| Compose.MissingModelLeavesManifestUnchanged | scripts/generate_compose.py:72-79 | Removing a pair whose model has no image changes neither the manifest (names, records, ports) nor the error. |
| Compose.WalkFailsAtFirstBadPair | scripts/generate_compose.py:72-76 | A host fails if and only if some pair with a catalogued model has a selector `expand` rejects. The error names the first such selector. |
| Compose.EmissionsComeFromCatalogAndSelectors | scripts/generate_compose.py:72-77 | Every planned service is for a catalogued model, with its catalogued image, on a device that a selector paired with that model denotes. |
| Compose.ServicesLookup | scripts/generate_compose.py:77-79 | The dict maps a name to the service built for the last planned service under that name (published on base + its index), and has no other names. |
| Compose.ServicesOrder | scripts/generate_compose.py:76-82 | The manifest lists the services in the order their names were first planned, so a colliding service is written where the one it replaced stood. |
| Compose.ServicesKeysDistinct | scripts/generate_compose.py:78 | No service name is stored twice in a manifest. |
| Compose.ServiceEntry | scripts/generate_compose.py:77-78 | Each stored entry is the record built for the last planned service under its name, so it reserves that service's own GPU and serves its model. |
| Compose.PortOfEntry | scripts/generate_compose.py:70-79 | A stored service publishes base + i, where i is the position of the service it was built from in the walk. |
| Compose.PortsDistinct | scripts/generate_compose.py:70-79 | Two stored services never publish the same port. |
| Compose.PortsDistinctAndInRange | scripts/generate_compose.py:70-79 | All published ports lie in base .. base+k-1, where k is the number of services built, and they are pairwise different. |
| Compose.ServicesWithoutCollision | scripts/generate_compose.py:70-79 | Without name collisions every planned service is kept, in walk order, the i-th one on port base + i. |
| Scenarios.TwoDeviceHost | scripts/generate_compose.py:68-79 | A host `{cuda:0-1: m}` with a catalogued model yields a version 3.9 manifest with exactly the services for GPU 0 on the base port and GPU 1 on the next, in that order, and skips nothing. |
| Scenarios.ExpandZeroAndThree | scripts/generate_compose.py:21-26 | `cuda:0` gives [0] and `cuda:3` gives [3]. |
| Scenarios.SameNameOverwrites | scripts/generate_compose.py:76-79 | Two models with one base name on device 0 leave a single entry. It is the later model's service, on the second port, because the overwritten one consumed the first. |
| Scenarios.MissingModelNotParsed | scripts/generate_compose.py:72-77 | A model with no image and a malformed selector is skipped without error, and the next model gets the base port. |
| Scenarios.BadSelectorEndsHost | scripts/generate_compose.py:22-24 | A malformed selector of a catalogued model ends the host with that selector's error. |

## Left out

- Command-line parsing and file handling are not modelled: reading and decoding `cluster.json` and `images.yaml`, `yaml.dump`, and writing the files. The cluster arrives decoded, as a sequence of (host, sequence of (selector, model)) pairs. The catalog arrives as a map.
- `GenerateAll` models the uncaught `ValueError` as an error result that stops the loop over hosts. The traceback and the process exit status are not modelled.
- The console messages are not modelled as text. The models reported as having no image are collected in each host outcome's `skipped` list. The "Generated" message is left out.
- A catalog entry whose image is YAML `null` is not representable: the catalog is a map to strings. The source skips such a model as if it were missing.
- `\d` is restricted to ASCII digits. Python's pattern also accepts other Unicode decimal digits.
- The nested `deploy`/`resources`/`reservations`/`devices` structure of a service record is flattened into the single field `devices`.
- Compose.AssembleHost: the device loop is the separate method `AddServices`, called once per pair. The services dict is a value that the loop reassigns, not an object shared by aliasing.
- The zero-shot classification services (`zero_shot_clf/`) and `scripts/test_api.py` are not part of this model. They are HTTP and inference-engine glue.
