/**
 * The per-host manifest assembly of `generate_compose.py`'s `main`: for each
 * host, a fresh manifest with version 3.9 and no services, and a port counter
 * reset to the base port; the host's (selector, model) pairs are walked in
 * insertion order, a model without an image is reported and skipped before its
 * selector is read, and otherwise one service per expanded device is stored
 * under its name, the counter advancing by one per service.
 */
module Compose {
  import opened Wrappers
  import opened Decimal
  import opened Selector
  import opened Service
  import opened Dict

  const Version: string := "3.9"

  /** One service the walk builds: a model, its image and one of its devices. */
  datatype Emission = Emission(model: string, image: string, gpu: nat)

  /**
   * The result of walking a host's pairs: the services to build in order, the
   * models reported as having no image, and the selector that raised, if any.
   */
  datatype Walk = Walk(emissions: seq<Emission>, skipped: seq<string>, failed: Option<string>)

  /** One docker-compose document: `version` and the ordered `services` dict. */
  datatype Manifest = Manifest(version: string, services: seq<(string, ServiceDef)>)

  /** What one host yields: a manifest, or the selector whose `ValueError` ended the host. */
  datatype HostOutcome =
    | Generated(manifest: Manifest, skipped: seq<string>)
    | InvalidSelector(selector: string, skipped: seq<string>)

  /** A pair whose model has an image but whose selector `expand` rejects. */
  predicate BadPair(pair: (string, string), images: map<string, string>) {
    pair.1 in images && Expand(pair.0).None?
  }

  /** The services built for one model on the given devices, in device order. */
  function Emit(model: string, image: string, gpus: seq<nat>): (r: seq<Emission>)
    ensures |r| == |gpus|
    ensures forall k :: 0 <= k < |gpus| ==> r[k] == Emission(model, image, gpus[k])
  {
    if gpus == [] then [] else [Emission(model, image, gpus[0])] + Emit(model, image, gpus[1..])
  }

  /** One iteration of the loop over a host's pairs; nothing happens after a selector has raised. */
  function Step(w: Walk, pair: (string, string), images: map<string, string>): Walk {
    if w.failed.Some? then w
    else if pair.1 !in images then w.(skipped := w.skipped + [pair.1])
    else
      match Expand(pair.0)
      case None => w.(failed := Some(pair.0))
      case Some(gpus) => w.(emissions := w.emissions + Emit(pair.1, images[pair.1], gpus))
  }

  /** The walk over a host's pairs in insertion order. */
  function WalkOf(pairs: seq<(string, string)>, images: map<string, string>): Walk {
    if pairs == [] then Walk([], [], None)
    else Step(WalkOf(pairs[..|pairs| - 1], images), pairs[|pairs| - 1], images)
  }

  function NameOf(e: Emission): string {
    ServiceName(e.model, e.gpu)
  }

  /** The service built for one planned service on a given port. */
  function Build(e: Emission, port: int): (string, ServiceDef) {
    MakeService(e.model, e.image, e.gpu, port)
  }

  /** The i-th service built, published on the i-th port from the base. */
  function Descriptor(plan: seq<Emission>, base: int, i: nat): (string, ServiceDef)
    requires i < |plan|
  {
    Build(plan[i], base + i)
  }

  /** Each element paired with its position counted from base, through f. */
  function Numbered<T, U>(xs: seq<T>, base: int, f: (T, int) -> U): (r: seq<U>)
    ensures |r| == |xs|
    ensures forall i :: 0 <= i < |xs| ==> r[i] == f(xs[i], base + i)
  {
    seq(|xs|, i requires 0 <= i < |xs| => f(xs[i], base + i))
  }

  /** The services in the order they are built, each with the name it is stored under. */
  function Built(plan: seq<Emission>, base: int): seq<(string, ServiceDef)> {
    Numbered(plan, base, Build)
  }

  /**
   * The services dict after storing every planned service in order, each under
   * its name, the i-th one built on port base + i.
   */
  function Services(plan: seq<Emission>, base: int): seq<(string, ServiceDef)> {
    if plan == [] then []
    else
      var svc := Build(plan[|plan| - 1], base + |plan| - 1);
      Put(Services(plan[..|plan| - 1], base), svc.0, svc.1)
  }

  /** The manifest a host yields, as a function of its pairs, the catalog and the base port alone. */
  function HostSpec(pairs: seq<(string, string)>, images: map<string, string>, base: int): HostOutcome {
    var w := WalkOf(pairs, images);
    if w.failed.Some? then InvalidSelector(w.failed.value, w.skipped)
    else Generated(Manifest(Version, Services(w.emissions, base)), w.skipped)
  }

  /** The output file written for a host. */
  function FileName(server: string): string {
    "docker-compose." + server + ".yml"
  }

  /** The names the planned services are stored under, in order. */
  function Names(plan: seq<Emission>): (r: seq<string>)
    ensures |r| == |plan|
    ensures forall i :: 0 <= i < |plan| ==> r[i] == NameOf(plan[i])
  {
    seq(|plan|, i requires 0 <= i < |plan| => NameOf(plan[i]))
  }

  /** The last planned service stored under a name, which is the one the dict keeps; -1 if none. */
  function LastWriter(plan: seq<Emission>, name: string): (r: int)
    ensures -1 <= r < |plan|
    ensures r >= 0 ==> NameOf(plan[r]) == name
    ensures forall j :: r < j < |plan| ==> NameOf(plan[j]) != name
  {
    LastIndex(Names(plan), name)
  }

  // ---------------------------------------------------------------------------
  // The loops of `main`
  // ---------------------------------------------------------------------------

  /**
   * The body of the loop over hosts, for one host: the
   * nested loops over pairs and devices, with the port counter and the services
   * dict updated in place.
   */
  method AssembleHost(pairs: seq<(string, string)>, images: map<string, string>, basePort: int)
    returns (r: HostOutcome)
    ensures r == HostSpec(pairs, images, basePort)
  {
    var compose := Manifest(Version, []);
    var port := basePort;
    var skipped: seq<string> := [];
    ghost var emitted: seq<Emission> := [];
    var i := 0;
    while i < |pairs|
      invariant 0 <= i <= |pairs|
      invariant WalkOf(pairs[..i], images) == Walk(emitted, skipped, None)
      invariant compose == Manifest(Version, Services(emitted, basePort))
      invariant port == basePort + |emitted|
    {
      var selector, model := pairs[i].0, pairs[i].1;
      if model !in images {
        SkipStep(pairs, i, images, Walk(emitted, skipped, None));
        skipped := skipped + [model];
        i := i + 1;
        continue;
      }
      var image := images[model];
      var gpus := Expand(selector);
      if gpus.None? {
        FailStep(pairs, i, images, basePort);
        return InvalidSelector(selector, skipped);
      }
      EmitStep(pairs, i, images, Walk(emitted, skipped, None), gpus.value);
      compose, port := AddServices(compose, model, image, gpus.value, port, emitted, basePort);
      emitted := emitted + Emit(model, image, gpus.value);
      i := i + 1;
    }
    assert pairs[..i] == pairs;
    r := Generated(compose, skipped);
  }

  /**
   * The inner loop over the devices a selector expands to: one service per device, each
   * stored under its name on the next port.
   */
  method AddServices(compose: Manifest, model: string, image: string, gpus: seq<nat>, port: int,
                     ghost emitted: seq<Emission>, ghost basePort: int)
    returns (compose': Manifest, port': int)
    requires compose == Manifest(Version, Services(emitted, basePort))
    requires port == basePort + |emitted|
    ensures compose' == Manifest(Version, Services(emitted + Emit(model, image, gpus), basePort))
    ensures port' == port + |gpus|
  {
    compose', port' := compose, port;
    var j := 0;
    assert emitted + Emit(model, image, gpus[..0]) == emitted;
    while j < |gpus|
      invariant 0 <= j <= |gpus|
      invariant compose' == Manifest(Version, Services(emitted + Emit(model, image, gpus[..j]), basePort))
      invariant port' == basePort + |emitted| + j
    {
      var gpu := gpus[j];
      ghost var done := emitted + Emit(model, image, gpus[..j]);
      EmitSnoc(emitted, model, image, gpus, j);
      ServicesSnoc(done, Emission(model, image, gpu), basePort, port');
      var svc := MakeService(model, image, gpu, port');
      compose' := compose'.(services := Put(compose'.services, svc.0, svc.1));
      port' := port' + 1;
      j := j + 1;
    }
    assert gpus[..j] == gpus;
  }

  /**
   * The loop over hosts: one file per host, in order, each built from scratch;
   * a selector that raises ends the run, after the files of the hosts before it
   * have been written.
   */
  method GenerateAll(cluster: seq<(string, seq<(string, string)>)>, images: map<string, string>, basePort: int)
    returns (files: seq<(string, Manifest)>, error: Option<string>)
    ensures |files| <= |cluster|
    ensures forall k :: 0 <= k < |files| ==>
      HostSpec(cluster[k].1, images, basePort).Generated? &&
      files[k] == (FileName(cluster[k].0), HostSpec(cluster[k].1, images, basePort).manifest)
    ensures error.None? <==> |files| == |cluster|
    ensures error.Some? ==>
      HostSpec(cluster[|files|].1, images, basePort).InvalidSelector? &&
      error.value == HostSpec(cluster[|files|].1, images, basePort).selector
  {
    files := [];
    var h := 0;
    while h < |cluster|
      invariant h <= |cluster| && |files| == h
      invariant forall k :: 0 <= k < h ==>
        HostSpec(cluster[k].1, images, basePort).Generated? &&
        files[k] == (FileName(cluster[k].0), HostSpec(cluster[k].1, images, basePort).manifest)
    {
      var outcome := AssembleHost(cluster[h].1, images, basePort);
      if outcome.InvalidSelector? {
        return files, Some(outcome.selector);
      }
      files := files + [(FileName(cluster[h].0), outcome.manifest)];
      h := h + 1;
    }
    error := None;
  }

  // ---------------------------------------------------------------------------
  // Steps of the loop proofs
  // ---------------------------------------------------------------------------

  /** The walk over one more pair is one more step. */
  lemma WalkNext(pairs: seq<(string, string)>, i: nat, images: map<string, string>)
    requires i < |pairs|
    ensures WalkOf(pairs[..i + 1], images) == Step(WalkOf(pairs[..i], images), pairs[i], images)
  {
    assert pairs[..i + 1][..i] == pairs[..i];
  }

  /** A pair whose model has no image is added to the skipped models. */
  lemma SkipStep(pairs: seq<(string, string)>, i: nat, images: map<string, string>, w: Walk)
    requires i < |pairs| && WalkOf(pairs[..i], images) == w && w.failed.None?
    requires pairs[i].1 !in images
    ensures WalkOf(pairs[..i + 1], images) == w.(skipped := w.skipped + [pairs[i].1])
  {
    WalkNext(pairs, i, images);
  }

  /** A pair whose model has an image and whose selector expands plans one service per device. */
  lemma EmitStep(pairs: seq<(string, string)>, i: nat, images: map<string, string>, w: Walk, gpus: seq<nat>)
    requires i < |pairs| && WalkOf(pairs[..i], images) == w && w.failed.None?
    requires pairs[i].1 in images && Expand(pairs[i].0) == Some(gpus)
    ensures WalkOf(pairs[..i + 1], images) ==
      w.(emissions := w.emissions + Emit(pairs[i].1, images[pairs[i].1], gpus))
  {
    WalkNext(pairs, i, images);
  }

  /** A pair whose model has an image and whose selector raises ends the host with that selector. */
  lemma FailStep(pairs: seq<(string, string)>, i: nat, images: map<string, string>, base: int)
    requires i < |pairs| && WalkOf(pairs[..i], images).failed.None?
    requires pairs[i].1 in images && Expand(pairs[i].0).None?
    ensures HostSpec(pairs, images, base) == InvalidSelector(pairs[i].0, WalkOf(pairs[..i], images).skipped)
  {
    WalkNext(pairs, i, images);
    HostSpecAfterFailure(pairs, i + 1, images, base);
  }

  /** Planning one more device appends one service to the plan. */
  lemma EmitSnoc(emitted: seq<Emission>, model: string, image: string, gpus: seq<nat>, j: nat)
    requires j < |gpus|
    ensures emitted + Emit(model, image, gpus[..j + 1]) ==
      emitted + Emit(model, image, gpus[..j]) + [Emission(model, image, gpus[j])]
  {
    var prior, next := Emit(model, image, gpus[..j]), Emit(model, image, gpus[..j + 1]);
    assert next == prior + [Emission(model, image, gpus[j])];
  }

  lemma ServicesSnoc(plan: seq<Emission>, e: Emission, base: int, port: int)
    requires port == base + |plan|
    ensures Services(plan + [e], base) ==
      Put(Services(plan, base), MakeService(e.model, e.image, e.gpu, port).0,
          MakeService(e.model, e.image, e.gpu, port).1)
  {
    assert (plan + [e])[..|plan|] == plan;
  }

  /** The services dict is the series of assignments of the built services. */
  lemma {:induction false} ServicesAsPutAll(plan: seq<Emission>, base: int)
    ensures Services(plan, base) == PutAll(Built(plan, base))
  {
    if plan != [] {
      var init, e := plan[..|plan| - 1], plan[|plan| - 1];
      assert plan == init + [e];
      ServicesAsPutAll(init, base);
      BuiltSnoc(init, e, base);
      PutAllSnoc(Built(init, base), Descriptor(plan, base, |init|));
    }
  }

  lemma BuiltSnoc(plan: seq<Emission>, e: Emission, base: int)
    ensures Built(plan + [e], base) == Built(plan, base) + [Descriptor(plan + [e], base, |plan|)]
  {
    NumberedSnoc(plan, e, base, Build);
  }

  lemma NumberedSnoc<T, U>(xs: seq<T>, x: T, base: int, f: (T, int) -> U)
    ensures Numbered(xs + [x], base, f) == Numbered(xs, base, f) + [f(x, base + |xs|)]
  {
    var ys := xs + [x];
    assert forall i :: 0 <= i < |xs| ==> ys[i] == xs[i];
  }

  /** The built services carry the planned names, in order. */
  lemma BuiltKeys(plan: seq<Emission>, base: int)
    ensures Keys(Built(plan, base)) == Names(plan)
  {
  }

  /** A host whose walk has raised yields that selector's error, whatever follows. */
  lemma HostSpecAfterFailure(pairs: seq<(string, string)>, n: nat, images: map<string, string>, base: int)
    requires n <= |pairs| && WalkOf(pairs[..n], images).failed.Some?
    ensures HostSpec(pairs, images, base) ==
      InvalidSelector(WalkOf(pairs[..n], images).failed.value, WalkOf(pairs[..n], images).skipped)
  {
    WalkStopsAtFailure(pairs, n, images);
  }

  /** Once a selector has raised, later pairs change nothing. */
  lemma {:induction false} WalkStopsAtFailure(pairs: seq<(string, string)>, n: nat, images: map<string, string>)
    requires n <= |pairs| && WalkOf(pairs[..n], images).failed.Some?
    ensures WalkOf(pairs, images) == WalkOf(pairs[..n], images)
    decreases |pairs|
  {
    if n < |pairs| {
      var init := pairs[..|pairs| - 1];
      assert init[..n] == pairs[..n];
      WalkStopsAtFailure(init, n, images);
    } else {
      assert pairs[..n] == pairs;
    }
  }

  // ---------------------------------------------------------------------------
  // Properties of the walk
  // ---------------------------------------------------------------------------

  /**
   * A model without an image contributes no service and consumes no port: its
   * selector is not even read, so a malformed one raises nothing, and the rest
   * of the walk is as if the pair were absent.
   */
  lemma {:induction false} MissingModelContributesNothing(
    ps: seq<(string, string)>, p: (string, string), qs: seq<(string, string)>, images: map<string, string>)
    requires p.1 !in images
    ensures WalkOf(ps + [p] + qs, images).emissions == WalkOf(ps + qs, images).emissions
    ensures WalkOf(ps + [p] + qs, images).failed == WalkOf(ps + qs, images).failed
  {
    if qs == [] {
      assert ps + [p] + qs == ps + [p];
      assert (ps + [p])[..|ps|] == ps;
      assert ps + qs == ps;
    } else {
      var init := qs[..|qs| - 1];
      MissingModelContributesNothing(ps, p, init, images);
      var long, short := ps + [p] + qs, ps + qs;
      assert long[..|long| - 1] == ps + [p] + init;
      assert short[..|short| - 1] == ps + init;
      assert long[|long| - 1] == short[|short| - 1];
    }
  }

  /** Hence the manifest (or the error) of a host does not depend on pairs whose model has no image. */
  lemma MissingModelLeavesManifestUnchanged(
    ps: seq<(string, string)>, p: (string, string), qs: seq<(string, string)>,
    images: map<string, string>, base: int)
    requires p.1 !in images
    ensures HostSpec(ps + [p] + qs, images, base).Generated? == HostSpec(ps + qs, images, base).Generated?
    ensures HostSpec(ps + qs, images, base).Generated? ==>
      HostSpec(ps + [p] + qs, images, base).manifest == HostSpec(ps + qs, images, base).manifest
    ensures HostSpec(ps + qs, images, base).InvalidSelector? ==>
      HostSpec(ps + [p] + qs, images, base).selector == HostSpec(ps + qs, images, base).selector
  {
    MissingModelContributesNothing(ps, p, qs, images);
  }

  /**
   * A host fails exactly when some pair whose model has an image carries a
   * selector `expand` rejects, and the error names the first such selector.
   */
  lemma {:induction false} WalkFailsAtFirstBadPair(pairs: seq<(string, string)>, images: map<string, string>)
    ensures WalkOf(pairs, images).failed.None? <==> forall j :: 0 <= j < |pairs| ==> !BadPair(pairs[j], images)
    ensures WalkOf(pairs, images).failed.Some? ==>
      exists j :: 0 <= j < |pairs| && BadPair(pairs[j], images) &&
        WalkOf(pairs, images).failed.value == pairs[j].0 &&
        forall i :: 0 <= i < j ==> !BadPair(pairs[i], images)
  {
    if pairs != [] {
      var init := pairs[..|pairs| - 1];
      WalkFailsAtFirstBadPair(init, images);
      assert forall j :: 0 <= j < |init| ==> init[j] == pairs[j];
    }
  }

  /**
   * Every service the walk plans serves a model that has an image, with that
   * image, on a device that model's selector denotes.
   */
  lemma {:induction false} EmissionsComeFromCatalogAndSelectors(pairs: seq<(string, string)>, images: map<string, string>)
    ensures forall e :: e in WalkOf(pairs, images).emissions ==>
      e.model in images && e.image == images[e.model] &&
      exists j :: 0 <= j < |pairs| && pairs[j].1 == e.model &&
        Expand(pairs[j].0).Some? && e.gpu in Expand(pairs[j].0).value
  {
    if pairs != [] {
      var init := pairs[..|pairs| - 1];
      EmissionsComeFromCatalogAndSelectors(init, images);
      assert forall j :: 0 <= j < |init| ==> init[j] == pairs[j];
    }
  }

  // ---------------------------------------------------------------------------
  // Properties of the services dict
  // ---------------------------------------------------------------------------

  /** The dict maps each name to the last service planned under it, published on that service's port. */
  lemma ServicesLookup(plan: seq<Emission>, base: int, name: string)
    ensures Lookup(Services(plan, base), name) ==
      if LastWriter(plan, name) < 0 then None else Some(Descriptor(plan, base, LastWriter(plan, name)).1)
  {
    ServicesAsPutAll(plan, base);
    PutAllLookup(Built(plan, base), name);
    BuiltKeys(plan, base);
  }

  /**
   * The services appear in the order their names were first planned: a
   * service that overwrites an earlier one under the same name takes that
   * one's place, which is the order the manifest is written in.
   */
  lemma ServicesOrder(plan: seq<Emission>, base: int)
    ensures Keys(Services(plan, base)) == FirstOccurrences(Names(plan))
  {
    ServicesAsPutAll(plan, base);
    PutAllKeyOrder(Built(plan, base));
    BuiltKeys(plan, base);
  }

  /** No name is stored twice. */
  lemma ServicesKeysDistinct(plan: seq<Emission>, base: int)
    ensures KeysDistinct(Services(plan, base))
  {
    ServicesAsPutAll(plan, base);
    PutAllKeysDistinct(Built(plan, base));
  }

  /**
   * Each stored service is the one built for the last planned service under
   * its name: it carries that name as container name, reserves exactly that
   * service's GPU, serves its model with its image, and publishes the port
   * the counter held when it was built.
   */
  lemma ServiceEntry(plan: seq<Emission>, base: int, k: nat)
    requires k < |Services(plan, base)|
    ensures var S := Services(plan, base);
      var i := LastWriter(plan, S[k].0);
      0 <= i < |plan| && S[k] == Descriptor(plan, base, i)
  {
    var S := Services(plan, base);
    ServicesKeysDistinct(plan, base);
    LookupAt(S, k);
    ServicesLookup(plan, base, S[k].0);
  }

  /** The port of the k-th stored service is base + i for the planned service i it was built from. */
  lemma PortOfEntry(plan: seq<Emission>, base: int, k: nat)
    requires k < |Services(plan, base)|
    ensures PublishedPort(Services(plan, base)[k].1) == Some(base + LastWriter(plan, Services(plan, base)[k].0))
    ensures 0 <= LastWriter(plan, Services(plan, base)[k].0) < |plan|
  {
    ServiceEntry(plan, base, k);
  }

  /** Two stored services never share a port. */
  lemma PortsDistinct(plan: seq<Emission>, base: int, k1: nat, k2: nat)
    requires k1 < k2 < |Services(plan, base)|
    ensures PublishedPort(Services(plan, base)[k1].1) != PublishedPort(Services(plan, base)[k2].1)
  {
    var S := Services(plan, base);
    PortOfEntry(plan, base, k1);
    PortOfEntry(plan, base, k2);
    ServicesKeysDistinct(plan, base);
    var i1, i2 := LastWriter(plan, S[k1].0), LastWriter(plan, S[k2].0);
    assert S[k1].0 != S[k2].0;
    assert NameOf(plan[i1]) == S[k1].0 && NameOf(plan[i2]) == S[k2].0;
    assert i1 != i2;
  }

  /**
   * The ports of one host's services are pairwise different and lie in
   * base .. base + n - 1, where n is the number of services the walk built.
   */
  lemma PortsDistinctAndInRange(plan: seq<Emission>, base: int)
    ensures forall k :: 0 <= k < |Services(plan, base)| ==>
      PublishedPort(Services(plan, base)[k].1).Some? &&
      base <= PublishedPort(Services(plan, base)[k].1).value < base + |plan|
    ensures forall k1, k2 :: 0 <= k1 < k2 < |Services(plan, base)| ==>
      PublishedPort(Services(plan, base)[k1].1) != PublishedPort(Services(plan, base)[k2].1)
  {
    forall k | 0 <= k < |Services(plan, base)|
      ensures PublishedPort(Services(plan, base)[k].1).Some? &&
        base <= PublishedPort(Services(plan, base)[k].1).value < base + |plan|
    {
      PortOfEntry(plan, base, k);
    }
    forall k1, k2 | 0 <= k1 < k2 < |Services(plan, base)|
      ensures PublishedPort(Services(plan, base)[k1].1) != PublishedPort(Services(plan, base)[k2].1)
    {
      PortsDistinct(plan, base, k1, k2);
    }
  }

  /**
   * Without name collisions every planned service is kept, in order, the i-th
   * on port base + i: the ports are exactly base .. base + n - 1.
   */
  lemma ServicesWithoutCollision(plan: seq<Emission>, base: int)
    requires forall i, j :: 0 <= i < j < |plan| ==> NameOf(plan[i]) != NameOf(plan[j])
    ensures |Services(plan, base)| == |plan|
    ensures forall i :: 0 <= i < |plan| ==> Services(plan, base)[i] == Descriptor(plan, base, i)
  {
    ServicesAsPutAll(plan, base);
    PutAllDistinct(Built(plan, base));
  }
}
