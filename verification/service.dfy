/**
 * The service descriptor builder `make_service(model, image, gpu, external_port)`:
 * a service name derived from the model identifier and the GPU index, and the
 * docker-compose service record for one model on one GPU.
 */
module Service {
  import opened Wrappers
  import opened Decimal

  /** One entry of `deploy.resources.reservations.devices`. */
  datatype DeviceRequest = DeviceRequest(driver: string, deviceIds: seq<string>, capabilities: seq<string>)

  /**
   * The compose service record. The nesting `deploy: resources: reservations: devices`
   * is kept as the single field `devices`.
   */
  datatype ServiceDef = ServiceDef(
    image: string,
    containerName: string,
    restart: string,
    ports: seq<string>,
    devices: seq<DeviceRequest>,
    environment: seq<string>)

  /** `:` and the port FastAPI listens on inside every container, which ends every port mapping. */
  const ToContainerPort: string := ":8000"

  const EnvKey: string := "MODEL_ID="

  /** The last piece of the model identifier split at `/`. */
  function LastSegment(model: string): string {
    if model == [] || model[|model| - 1] == '/' then []
    else LastSegment(model[..|model| - 1]) + [model[|model| - 1]]
  }

  /** Every `.` of s replaced by `-`. */
  function DotsToDashes(s: string): string {
    if s == [] then [] else [if s[0] == '.' then '-' else s[0]] + DotsToDashes(s[1..])
  }

  /** The part of a service name that comes from the model identifier. */
  function BaseName(model: string): string {
    DotsToDashes(LastSegment(model))
  }

  /** The last segment is what follows the last `/`, or the whole identifier when it has none. */
  lemma {:induction false} LastSegmentIsSuffix(model: string)
    ensures var r := LastSegment(model);
      '/' !in r && |r| <= |model| && r == model[|model| - |r|..] &&
      (|r| == |model| || model[|model| - |r| - 1] == '/')
  {
    if model != [] && model[|model| - 1] != '/' {
      var init := model[..|model| - 1];
      LastSegmentIsSuffix(init);
      var r := LastSegment(model);
      assert r == LastSegment(init) + [model[|model| - 1]];
      assert init[|model| - |r|..] == model[|model| - |r|..|model| - 1];
    }
  }

  /** Replacing dots keeps the length and changes exactly the dots, into dashes. */
  lemma {:induction false} DotsToDashesSpec(s: string)
    ensures |DotsToDashes(s)| == |s|
    ensures forall i :: 0 <= i < |s| ==> DotsToDashes(s)[i] == if s[i] == '.' then '-' else s[i]
  {
    if s != [] {
      DotsToDashesSpec(s[1..]);
    }
  }

  /** The model part of a service name holds neither `/` nor `.`. */
  lemma BaseNameClean(model: string)
    ensures '/' !in BaseName(model) && '.' !in BaseName(model)
  {
    LastSegmentIsSuffix(model);
    DotsToDashesSpec(LastSegment(model));
  }

  /** The service name: the base name, then `-gpu`, then the GPU index in decimal. */
  function ServiceName(model: string, gpu: nat): string {
    BaseName(model) + "-gpu" + Show(gpu)
  }

  /** Reads the host port back from a `"<port>:8000"` mapping. */
  function HostPort(mapping: string): Option<int> {
    if |mapping| >= |ToContainerPort| && mapping[|mapping| - |ToContainerPort|..] == ToContainerPort then
      ParseInt(mapping[..|mapping| - |ToContainerPort|])
    else
      None
  }

  /** The host port a service publishes, when it publishes exactly one mapping to the container port. */
  function PublishedPort(svc: ServiceDef): Option<int> {
    if |svc.ports| == 1 then HostPort(svc.ports[0]) else None
  }

  /** The GPU a service reserves, when it reserves exactly one nvidia device with the `gpu` capability. */
  function ReservedGpu(svc: ServiceDef): Option<nat> {
    if |svc.devices| == 1 && svc.devices[0].driver == "nvidia"
      && svc.devices[0].capabilities == ["gpu"] && |svc.devices[0].deviceIds| == 1
    then ParseNat(svc.devices[0].deviceIds[0])
    else None
  }

  /** The model a service serves, when its environment is exactly one `MODEL_ID=` entry. */
  function ServedModel(svc: ServiceDef): Option<string> {
    if |svc.environment| == 1 && |svc.environment[0]| >= |EnvKey|
      && svc.environment[0][..|EnvKey|] == EnvKey
    then Some(svc.environment[0][|EnvKey|..])
    else None
  }

  /** The mapping that publishes a host port on the container port. */
  function PortMapping(port: int): string {
    ShowInt(port) + ToContainerPort
  }

  /** The reservation of one nvidia GPU, by its index. */
  function GpuReservation(gpu: nat): DeviceRequest {
    DeviceRequest("nvidia", [Show(gpu)], ["gpu"])
  }

  /** The environment entry that names the served model. */
  function ModelEntry(model: string): string {
    EnvKey + model
  }

  /** A port mapping built from a host port reads back as that port. */
  lemma HostPortRoundTrip(port: int)
    ensures HostPort(PortMapping(port)) == Some(port)
  {
    var mapping := ShowInt(port) + ToContainerPort;
    assert mapping[|mapping| - 5..] == ToContainerPort;
    assert mapping[..|mapping| - 5] == ShowInt(port);
  }

  /** Only the mapping built from a port reads back as that port. */
  lemma HostPortOnlyMapping(mapping: string, port: int)
    ensures HostPort(mapping) == Some(port) <==> mapping == PortMapping(port)
  {
    if HostPort(mapping) == Some(port) {
      var digits := mapping[..|mapping| - |ToContainerPort|];
      ParseIntOnlyShowInt(digits, port);
      assert mapping == digits + mapping[|mapping| - |ToContainerPort|..];
    }
    if mapping == PortMapping(port) {
      HostPortRoundTrip(port);
    }
  }

  /**
   * The decoders admit a single spelling: a record that publishes port p,
   * reserves GPU g and serves model m holds exactly the mapping `"<p>:8000"`,
   * the one device id `str(g)` and the one entry `MODEL_ID=<m>`.
   */
  lemma DecodedFieldsExact(svc: ServiceDef, port: int, gpu: nat, model: string)
    requires PublishedPort(svc) == Some(port)
    requires ReservedGpu(svc) == Some(gpu)
    requires ServedModel(svc) == Some(model)
    ensures svc.ports == [PortMapping(port)]
    ensures svc.devices == [GpuReservation(gpu)]
    ensures svc.environment == [ModelEntry(model)]
  {
    HostPortOnlyMapping(svc.ports[0], port);
    var d := svc.devices[0];
    ParseNatOnlyShow(d.deviceIds[0], gpu);
    assert d.deviceIds == [Show(gpu)];
    assert d == GpuReservation(gpu);
    var env := svc.environment[0];
    assert env == env[..|EnvKey|] + env[|EnvKey|..];
  }

  /**
   * `make_service`: the key under which the service is stored, and its record,
   * which publishes exactly the given port, reserves exactly the given GPU and
   * serves exactly the given model.
   */
  function MakeService(model: string, image: string, gpu: nat, externalPort: int): (r: (string, ServiceDef))
    ensures r.0 == ServiceName(model, gpu) && r.1.containerName == r.0
    ensures r.1.image == image && r.1.restart == "unless-stopped"
    ensures PublishedPort(r.1) == Some(externalPort)
    ensures ReservedGpu(r.1) == Some(gpu)
    ensures ServedModel(r.1) == Some(model)
  {
    var name := ServiceName(model, gpu);
    var svc := ServiceDef(
      image,
      name,
      "unless-stopped",
      [PortMapping(externalPort)],
      [GpuReservation(gpu)],
      [ModelEntry(model)]);
    PublishesOnly(svc, externalPort);
    ReservesOnly(svc, gpu);
    ServesOnly(svc, model);
    (name, svc)
  }

  lemma PublishesOnly(svc: ServiceDef, port: int)
    requires svc.ports == [PortMapping(port)]
    ensures PublishedPort(svc) == Some(port)
  {
    HostPortRoundTrip(port);
  }

  lemma ReservesOnly(svc: ServiceDef, gpu: nat)
    requires svc.devices == [GpuReservation(gpu)]
    ensures ReservedGpu(svc) == Some(gpu)
  {
  }

  lemma ServesOnly(svc: ServiceDef, model: string)
    requires svc.environment == [ModelEntry(model)]
    ensures ServedModel(svc) == Some(model)
  {
    var env := EnvKey + model;
    assert env[..|EnvKey|] == EnvKey && env[|EnvKey|..] == model;
  }

  /**
   * A service name determines the GPU index and the model's base name: two
   * names agree exactly when both parts agree. Models with the same base name
   * (`org/m` and `m`, or `a.b` and `a-b`) therefore share names.
   */
  lemma ServiceNameInjective(m1: string, g1: nat, m2: string, g2: nat)
    ensures ServiceName(m1, g1) == ServiceName(m2, g2) <==> BaseName(m1) == BaseName(m2) && g1 == g2
  {
    if ServiceName(m1, g1) == ServiceName(m2, g2) {
      var n := ServiceName(m1, g1);
      var s1, s2 := Show(g1), Show(g2);
      TrailingDigitsAfterGpu(BaseName(m1), s1);
      TrailingDigitsAfterGpu(BaseName(m2), s2);
      assert s1 == n[|n| - |s1|..] == s2;
      assert BaseName(m1) == n[..|n| - |s1| - 4] == BaseName(m2);
    }
  }

  /** An identifier without `/` is its own last segment. */
  lemma {:induction false} LastSegmentWhole(seg: string)
    requires '/' !in seg
    ensures LastSegment(seg) == seg
  {
    if seg != [] {
      var init := seg[..|seg| - 1];
      assert '/' !in init by {
        forall i | 0 <= i < |init| ensures init[i] != '/' {
          assert init[i] == seg[i];
        }
      }
      LastSegmentWhole(init);
      assert init + [seg[|seg| - 1]] == seg;
    }
  }

  /** After a `/`, a segment without `/` is the last segment, whatever precedes it. */
  lemma {:induction false} LastSegmentAfterSlash(prefix: string, seg: string)
    requires '/' !in seg
    ensures LastSegment(prefix + "/" + seg) == seg
  {
    var m := prefix + "/" + seg;
    if seg != [] {
      var init := seg[..|seg| - 1];
      assert m[..|m| - 1] == prefix + "/" + init;
      assert m[|m| - 1] == seg[|seg| - 1];
      LastSegmentAfterSlash(prefix, init);
      assert init + [seg[|seg| - 1]] == seg;
    }
  }

  /** Without dots, replacing dots changes nothing. */
  lemma DotsToDashesNoDots(s: string)
    requires '.' !in s
    ensures DotsToDashes(s) == s
  {
  }

  /** The number of digits at the end of a string. */
  function TrailingDigits(s: string): (n: nat)
    ensures n <= |s|
  {
    if s == [] || !IsDigit(s[|s| - 1]) then 0 else 1 + TrailingDigits(s[..|s| - 1])
  }

  /** The digits after `-gpu` are exactly the trailing digits of the name: the `u` stops the count. */
  lemma {:induction false} TrailingDigitsAfterGpu(b: string, s: string)
    requires IsDigits(s)
    ensures TrailingDigits(b + "-gpu" + s) == |s|
  {
    if s != [] {
      var n := b + "-gpu" + s;
      assert n[..|n| - 1] == b + "-gpu" + s[..|s| - 1];
      TrailingDigitsAfterGpu(b, s[..|s| - 1]);
    }
  }
}
