/** Concrete inputs and what the model yields for them. */
module Scenarios {
  import opened Wrappers
  import opened Decimal
  import opened Selector
  import opened Service
  import opened Dict
  import opened Compose

  /** `cuda:5` denotes device 5 alone. */
  lemma ExpandSingleDevice()
    ensures Expand("cuda:5") == Some([5])
  {
    assert Prefix + "5" == "cuda:5";
    ExpandSingle("5");
  }

  /** `cuda:2-4` denotes devices 2, 3 and 4. */
  lemma ExpandAscendingRange()
    ensures Expand("cuda:2-4") == Some([2, 3, 4])
  {
    assert Prefix + "2" + "-" + "4" == "cuda:2-4";
    ExpandRange("2", "4");
    assert "2"[..0] == [] && "4"[..0] == [];
    assert Value("2") == 2 && Value("4") == 4;
    assert Range(2, 4) == [2, 3, 4];
  }

  /** `cuda:0-1` denotes devices 0 and 1. */
  lemma ExpandFirstTwo()
    ensures Expand("cuda:0-1") == Some([0, 1])
  {
    assert Prefix + "0" + "-" + "1" == "cuda:0-1";
    ExpandRange("0", "1");
    assert "0"[..0] == [] && "1"[..0] == [];
    assert Range(0, 1) == [0, 1];
  }

  /** The reversed `cuda:4-2` matches the pattern and denotes no device at all. */
  lemma ExpandReversedRange()
    ensures Expand("cuda:4-2") == Some([])
  {
    assert Prefix + "4" + "-" + "2" == "cuda:4-2";
    ExpandRange("4", "2");
  }

  /** Leading zeros are read as `int` reads them. */
  lemma ExpandLeadingZeros()
    ensures Expand("cuda:007") == Some([7])
  {
    assert Prefix + "007" == "cuda:007";
    ExpandSingle("007");
    assert "007"[..2] == "00" && "00"[..1] == "0" && "0"[..0] == [];
    assert Value("007") == 7;
  }

  /** Tokens outside the grammar raise. */
  lemma ExpandRejects()
    ensures Expand("cuda:x") == None
    ensures Expand(" cuda:1") == None
    ensures Expand("cuda:1 ") == None
    ensures Expand("cuda:0,1") == None
    ensures Expand("cuda:-1") == None
    ensures Expand("cuda:1-") == None
    ensures Expand("cuda:1-2-3") == None
    ensures Expand("gpu:1") == None
    ensures Expand("cuda:") == None
  {
    DigitRunStops("cuda:0,1", 5, 6);
    DigitRunStops("cuda:1-2-3", 5, 6);
    DigitRunStops("cuda:1-2-3", 7, 8);
  }

  /** A model identifier with neither `/` nor `.` names its services as it is. */
  lemma PlainBaseName(model: string)
    requires '/' !in model && '.' !in model
    ensures BaseName(model) == model
  {
    LastSegmentWhole(model);
    DotsToDashesNoDots(model);
  }

  /** For such a model, device 0 or 1 and any port, the service `make_service` returns. */
  lemma PlainService(model: string, image: string, gpu: nat, port: int)
    requires '/' !in model && '.' !in model && gpu < 2
    ensures MakeService(model, image, gpu, port) ==
      (model + "-gpu" + [DigitChar(gpu)],
       ServiceDef(image, model + "-gpu" + [DigitChar(gpu)], "unless-stopped", [ShowInt(port) + ToContainerPort],
                  [DeviceRequest("nvidia", [[DigitChar(gpu)]], ["gpu"])], ["MODEL_ID=" + model]))
  {
    PlainBaseName(model);
  }

  /** The walk over `{"cuda:0-1": model}` plans that model on devices 0 and 1. */
  lemma TwoDeviceWalk(model: string, image: string)
    ensures WalkOf([("cuda:0-1", model)], map[model := image]) ==
      Walk([Emission(model, image, 0), Emission(model, image, 1)], [], None)
  {
    var pairs := [("cuda:0-1", model)];
    ExpandFirstTwo();
    assert pairs[..0] == [];
  }

  /** Both planned services are kept, on consecutive ports. */
  lemma TwoDeviceServices(model: string, image: string, base: int)
    ensures Services([Emission(model, image, 0), Emission(model, image, 1)], base) ==
      [MakeService(model, image, 0, base), MakeService(model, image, 1, base + 1)]
  {
    ServiceNameInjective(model, 0, model, 1);
    TwoServices([Emission(model, image, 0), Emission(model, image, 1)], base);
  }

  /** Two planned services under different names are both stored, in order. */
  lemma TwoServices(plan: seq<Emission>, base: int)
    requires |plan| == 2 && NameOf(plan[0]) != NameOf(plan[1])
    ensures Services(plan, base) == [Descriptor(plan, base, 0), Descriptor(plan, base, 1)]
  {
    assert plan[..1][..0] == [];
    assert Services(plan[..1], base) == [Descriptor(plan, base, 0)];
  }

  /**
   * A host `{"cuda:0-1": model}` whose model has an image: version 3.9, no
   * skipped model, and the services for devices 0 and 1 in that order, on the
   * base port and the next (for a plain model name `PlainService` spells each
   * record out).
   */
  lemma TwoDeviceHost(model: string, image: string, base: int)
    ensures HostSpec([("cuda:0-1", model)], map[model := image], base) ==
      Generated(Manifest("3.9", [MakeService(model, image, 0, base), MakeService(model, image, 1, base + 1)]), [])
  {
    TwoDeviceWalk(model, image);
    TwoDeviceServices(model, image, base);
  }

  /** The service for device 0 of a plain model name, spelled out. */
  lemma FirstDeviceService(model: string, image: string, port: int)
    requires '/' !in model && '.' !in model
    ensures MakeService(model, image, 0, port) ==
      (model + "-gpu0",
       ServiceDef(image, model + "-gpu0", "unless-stopped", [ShowInt(port) + ":8000"],
                  [DeviceRequest("nvidia", ["0"], ["gpu"])], ["MODEL_ID=" + model]))
  {
    PlainService(model, image, 0, port);
    assert [DigitChar(0)] == "0";
    assert model + "-gpu" + "0" == model + "-gpu0";
  }

  /** `cuda:0` and `cuda:3` denote one device each. */
  lemma ExpandZeroAndThree()
    ensures Expand("cuda:0") == Some([0]) && Expand("cuda:3") == Some([3])
  {
    assert Prefix + "0" == "cuda:0" && Prefix + "3" == "cuda:3";
    ExpandSingle("0");
    ExpandSingle("3");
    assert "0"[..0] == [] && "3"[..0] == [];
  }

  lemma OverwriteWalk(m1: string, m2: string, images: map<string, string>)
    requires m1 in images && m2 in images
    ensures WalkOf([("cuda:0", m1), ("cuda:0", m2)], images) ==
      Walk([Emission(m1, images[m1], 0), Emission(m2, images[m2], 0)], [], None)
  {
    var pairs := [("cuda:0", m1), ("cuda:0", m2)];
    ExpandZeroAndThree();
    assert pairs[..1] == [("cuda:0", m1)] && pairs[..1][..0] == [];
    var e1, e2 := Emission(m1, images[m1], 0), Emission(m2, images[m2], 0);
    assert Emit(m1, images[m1], [0]) == [e1];
    assert WalkOf(pairs[..1], images) == Walk([e1], [], None);
    assert Emit(m2, images[m2], [0]) == [e2];
  }

  /** Two planned services under one name leave one entry: the second, on the second port. */
  lemma OverwriteServices(plan: seq<Emission>, base: int)
    requires |plan| == 2 && NameOf(plan[0]) == NameOf(plan[1])
    ensures Services(plan, base) == [Descriptor(plan, base, 1)]
  {
    assert plan[..1][..0] == [];
    assert Services(plan[..1], base) == [Descriptor(plan, base, 0)];
  }

  /**
   * Two models whose names collide on device 0 (`org/m` and `m`, say): the
   * dict keeps one entry, holding the later model's service, which was built
   * on the second port, the first port having been used up by the overwritten one.
   */
  lemma SameNameOverwrites(m1: string, m2: string, images: map<string, string>, base: int)
    requires m1 in images && m2 in images && BaseName(m1) == BaseName(m2)
    ensures HostSpec([("cuda:0", m1), ("cuda:0", m2)], images, base) ==
      Generated(Manifest("3.9", [MakeService(m2, images[m2], 0, base + 1)]), [])
  {
    OverwriteWalk(m1, m2, images);
    var plan := [Emission(m1, images[m1], 0), Emission(m2, images[m2], 0)];
    ServiceNameInjective(m1, 0, m2, 0);
    OverwriteServices(plan, base);
  }

  /** The collision above for `org/m` and `m`. */
  lemma SlashPrefixCollides()
    ensures BaseName("org/m") == BaseName("m")
  {
    assert "org/m" == "org" + "/" + "m";
    LastSegmentAfterSlash("org", "m");
    LastSegmentWhole("m");
  }

  /**
   * A model without an image is reported and skipped before its selector is
   * read: the malformed `cuda:x` raises nothing, and the next model gets the
   * base port.
   */
  lemma MissingModelNotParsed(missing: string, model: string, images: map<string, string>, base: int)
    requires missing !in images && model in images
    ensures HostSpec([("cuda:x", missing), ("cuda:3", model)], images, base) ==
      Generated(Manifest("3.9", [MakeService(model, images[model], 3, base)]), [missing])
  {
    MissingModelWalk(missing, model, images);
    SingleService([Emission(model, images[model], 3)], base);
  }

  /** One planned service is stored as it was built, on the base port. */
  lemma SingleService(plan: seq<Emission>, base: int)
    requires |plan| == 1
    ensures Services(plan, base) == [Descriptor(plan, base, 0)]
  {
    ServicesWithoutCollision(plan, base);
  }

  lemma MissingModelWalk(missing: string, model: string, images: map<string, string>)
    requires missing !in images && model in images
    ensures WalkOf([("cuda:x", missing), ("cuda:3", model)], images) ==
      Walk([Emission(model, images[model], 3)], [missing], None)
  {
    var pairs := [("cuda:x", missing), ("cuda:3", model)];
    ExpandZeroAndThree();
    assert pairs[..1] == [("cuda:x", missing)] && pairs[..1][..0] == [];
    assert WalkOf(pairs[..1], images) == Walk([], [missing], None);
    assert Emit(model, images[model], [3]) == [Emission(model, images[model], 3)];
  }

  /** A malformed selector of a model that has an image ends the host with that selector's error. */
  lemma BadSelectorEndsHost(model: string, images: map<string, string>, base: int)
    requires model in images
    ensures HostSpec([("cuda:0", model), ("cuda:x", model)], images, base) == InvalidSelector("cuda:x", [])
  {
    var pairs := [("cuda:0", model), ("cuda:x", model)];
    ExpandZeroAndThree();
    ExpandRejects();
    assert pairs[..1] == [("cuda:0", model)] && pairs[..1][..0] == [];
    var w1 := Walk([Emission(model, images[model], 0)], [], None);
    assert Emit(model, images[model], [0]) == w1.emissions;
    assert WalkOf(pairs[..1], images) == w1;
    assert Expand("cuda:x").None?;
    assert WalkOf(pairs, images) == Step(w1, pairs[1], images);
  }
}
