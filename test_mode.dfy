/**
 * The static test mode of Classifier.py (`main`, lines 136-210): every
 * eligible test image is inferred and counted, then compared with the gallery
 * entries in listing order until the first match; each failed comparison
 * publishes an INTRUDER warning and the match publishes a RECOGNISED warning
 * labelled with the TEST image's name. At the end the graph is deallocated and
 * the device closed.
 */
module TestMode {
  import opened FileNames
  import opened Events
  import opened Lifecycle
  import opened Gallery
  import opened Sequences

  /** The gallery inferences of a walk, one per entry compared. */
  function GalleryInputs(names: seq<string>): seq<Input>
  {
    if names == [] then []
    else GalleryInputs(names[..|names| - 1]) + [GalleryImage(names[|names| - 1])]
  }

  lemma GalleryInputsSnoc(names: seq<string>, name: string)
    ensures GalleryInputs(names + [name]) == GalleryInputs(names) + [GalleryImage(name)]
  {
    assert (names + [name])[..|names|] == names;
  }

  /** Appending one gallery inference to a log that ends with those of `names`. */
  lemma InputsGrow(prefix: seq<Input>, names: seq<string>, name: string)
    ensures prefix + GalleryInputs(names) + [GalleryImage(name)] == prefix + GalleryInputs(names + [name])
  {
    GalleryInputsSnoc(names, name);
  }

  /** The warnings one eligible test image publishes. */
  function TestEvents(test: string, gallery: seq<string>, isMatch: (string, string) -> bool,
                      origin: string): seq<Event>
  {
    var o := Scan(gallery, isMatch, test);
    if o.matched then Intruders(origin, |o.compared| - 1) + [Recognised(origin, test)]
    else Intruders(origin, |o.compared|)
  }

  /** The inferences one eligible test image causes: itself, then each gallery entry compared. */
  function TestInputs(test: string, gallery: seq<string>, isMatch: (string, string) -> bool): seq<Input>
  {
    [TestImage(test)] + GalleryInputs(Scan(gallery, isMatch, test).compared)
  }

  /** The number of eligible test images that some eligible gallery entry matches. */
  function Identified(tests: seq<string>, gallery: seq<string>, isMatch: (string, string) -> bool): nat
  {
    if tests == [] then 0
    else (if IsEligible(tests[0]) && SomeMatch(gallery, isMatch, tests[0]) then 1 else 0)
         + Identified(tests[1..], gallery, isMatch)
  }

  /** All warnings of a test-mode run, test image by test image. */
  function RunEvents(tests: seq<string>, gallery: seq<string>, isMatch: (string, string) -> bool,
                     origin: string): seq<Event>
  {
    if tests == [] then []
    else (if IsEligible(tests[0]) then TestEvents(tests[0], gallery, isMatch, origin) else [])
         + RunEvents(tests[1..], gallery, isMatch, origin)
  }

  /** All inferences of a test-mode run, test image by test image. */
  function RunInputs(tests: seq<string>, gallery: seq<string>, isMatch: (string, string) -> bool): seq<Input>
  {
    if tests == [] then []
    else (if IsEligible(tests[0]) then TestInputs(tests[0], gallery, isMatch) else [])
         + RunInputs(tests[1..], gallery, isMatch)
  }

  /** How each summary of a run splits off the test image at position `i`. */
  lemma RunStep(tests: seq<string>, i: nat, gallery: seq<string>, isMatch: (string, string) -> bool,
                origin: string)
    requires i < |tests|
    ensures IsEligible(tests[i]) ==>
              |Eligible(tests[i..])| == 1 + |Eligible(tests[i + 1..])| &&
              Identified(tests[i..], gallery, isMatch)
                == (if SomeMatch(gallery, isMatch, tests[i]) then 1 else 0) + Identified(tests[i + 1..], gallery, isMatch) &&
              RunEvents(tests[i..], gallery, isMatch, origin)
                == TestEvents(tests[i], gallery, isMatch, origin) + RunEvents(tests[i + 1..], gallery, isMatch, origin) &&
              RunInputs(tests[i..], gallery, isMatch)
                == TestInputs(tests[i], gallery, isMatch) + RunInputs(tests[i + 1..], gallery, isMatch)
    ensures !IsEligible(tests[i]) ==>
              Eligible(tests[i..]) == Eligible(tests[i + 1..]) &&
              Identified(tests[i..], gallery, isMatch) == Identified(tests[i + 1..], gallery, isMatch) &&
              RunEvents(tests[i..], gallery, isMatch, origin) == RunEvents(tests[i + 1..], gallery, isMatch, origin) &&
              RunInputs(tests[i..], gallery, isMatch) == RunInputs(tests[i + 1..], gallery, isMatch)
  {
    assert tests[i..][1..] == tests[i + 1..];
    assert [] + RunEvents(tests[i + 1..], gallery, isMatch, origin) == RunEvents(tests[i + 1..], gallery, isMatch, origin);
    assert [] + RunInputs(tests[i + 1..], gallery, isMatch) == RunInputs(tests[i + 1..], gallery, isMatch);
  }

  /**
   * The gallery loop of `main` for one test image (lines 159-193): walk the
   * listing `valid`, inferring each eligible entry and comparing it with
   * `test`; publish INTRUDER for each failed comparison and RECOGNISED for the
   * first match, after which the walk stops. `walked` is what it compared.
   */
  method WalkGallery(c: Classifier, test: string, valid: seq<string>,
                     isMatch: (string, string) -> bool, origin: string)
    returns (found: bool, ghost walked: seq<string>)
    requires c.Valid() && c.state == Allocated
    modifies c
    ensures ScanFrom(valid, 0, isMatch, test, []) == ScanOutcome(walked, found)
    ensures c.Valid() && c.state == Allocated && c.graphFile == old(c.graphFile)
    ensures found ==> (|walked| > 0 &&
      c.published == old(c.published) + Intruders(origin, |walked| - 1) + [Recognised(origin, test)])
    ensures !found ==> c.published == old(c.published) + Intruders(origin, |walked|)
    ensures c.calls == old(c.calls)
    ensures c.inferences == old(c.inferences) + GalleryInputs(walked)
  {
    walked := [];
    found := false;
    var j := 0;
    while j < |valid|
      invariant 0 <= j <= |valid|
      invariant c.Valid() && c.state == Allocated && c.graphFile == old(c.graphFile)
      invariant ScanFrom(valid, 0, isMatch, test, []) == ScanFrom(valid, j, isMatch, test, walked)
      invariant c.published == old(c.published) + Intruders(origin, |walked|)
      invariant c.calls == old(c.calls)
      invariant c.inferences == old(c.inferences) + GalleryInputs(walked)
    {
      var entry := valid[j];
      if IsEligible(entry) {
        c.Infer(GalleryImage(entry));
        InputsGrow(old(c.inferences), walked, entry);
        walked := walked + [entry];
        if isMatch(entry, test) {
          c.Publish(Recognised(origin, test));
          found := true;
          break;
        }
        c.Publish(Intruder(origin));
        WarningsGrow(old(c.published), origin, |walked| - 1);
      }
      j := j + 1;
    }
  }

  /**
   * The body of `main`'s test loop for one eligible test image (lines
   * 156-193): infer the test image, then walk the gallery. Returns whether a
   * match was found.
   */
  method CompareWithGallery(c: Classifier, test: string, valid: seq<string>,
                            isMatch: (string, string) -> bool, origin: string)
    returns (found: bool)
    requires c.Valid() && c.state == Allocated
    modifies c
    ensures found == SomeMatch(valid, isMatch, test)
    ensures c.Valid() && c.state == Allocated && c.graphFile == old(c.graphFile)
    ensures c.published == old(c.published) + TestEvents(test, valid, isMatch, origin)
    ensures c.calls == old(c.calls)
    ensures c.inferences == old(c.inferences) + TestInputs(test, valid, isMatch)
  {
    c.Infer(TestImage(test));
    ghost var walked;
    found, walked := WalkGallery(c, test, valid, isMatch, origin);
    ScanFromStart(valid, isMatch, test);
    ScanMatchedIff(valid, isMatch, test);
    AppendAssoc(old(c.inferences), [TestImage(test)], GalleryInputs(walked));
    if found {
      AppendAssoc(old(c.published), Intruders(origin, |walked| - 1), [Recognised(origin, test)]);
    }
  }

  /**
   * `main` (lines 136-210): `testing` and `valid` are the listings of the test
   * and gallery directories, `isMatch(valid, test)` the match decision and
   * `origin` camera 0's ID. Returns the `files` and `identified` counters it
   * reports, and ends with the graph deallocated and the device closed.
   */
  method RunTestMode(c: Classifier, testing: seq<string>, valid: seq<string>,
                     isMatch: (string, string) -> bool, origin: string)
    returns (files: nat, identified: nat)
    requires c.Valid() && c.state == Allocated
    modifies c
    ensures files == |Eligible(testing)|
    ensures identified == Identified(testing, valid, isMatch)
    ensures c.Valid() && c.state == Closed && c.graphFile == old(c.graphFile)
    ensures c.published == old(c.published) + RunEvents(testing, valid, isMatch, origin)
    ensures c.calls == old(c.calls) + [Deallocate, Close]
    ensures c.inferences == old(c.inferences) + RunInputs(testing, valid, isMatch)
  {
    files, identified := 0, 0;
    var i := 0;
    while i < |testing|
      invariant 0 <= i <= |testing|
      invariant c.Valid() && c.state == Allocated && c.graphFile == old(c.graphFile)
      invariant files + |Eligible(testing[i..])| == |Eligible(testing)|
      invariant identified + Identified(testing[i..], valid, isMatch) == Identified(testing, valid, isMatch)
      invariant old(c.published) + RunEvents(testing, valid, isMatch, origin)
                == c.published + RunEvents(testing[i..], valid, isMatch, origin)
      invariant c.calls == old(c.calls)
      invariant old(c.inferences) + RunInputs(testing, valid, isMatch)
                == c.inferences + RunInputs(testing[i..], valid, isMatch)
    {
      var test := testing[i];
      RunStep(testing, i, valid, isMatch, origin);
      if IsEligible(test) {
        ghost var inferencesBefore, publishedBefore := c.inferences, c.published;
        files := files + 1;
        var found := CompareWithGallery(c, test, valid, isMatch, origin);
        if found {
          identified := identified + 1;
        }
        AppendAssoc(inferencesBefore, TestInputs(test, valid, isMatch), RunInputs(testing[i + 1..], valid, isMatch));
        AppendAssoc(publishedBefore, TestEvents(test, valid, isMatch, origin),
                    RunEvents(testing[i + 1..], valid, isMatch, origin));
      }
      i := i + 1;
    }
    assert testing[i..] == [];
    c.DeallocateGraph();
    c.CloseDevice();
  }

  /** Each test image adds at most one to `identified`. */
  lemma {:induction false} IdentifiedAtMostTested(tests: seq<string>, gallery: seq<string>,
                                                 isMatch: (string, string) -> bool)
    ensures Identified(tests, gallery, isMatch) <= |Eligible(tests)|
  {
    if tests != [] {
      IdentifiedAtMostTested(tests[1..], gallery, isMatch);
    }
  }

  /**
   * The warnings of one test image: one INTRUDER for each gallery entry compared
   * before the match (for every eligible entry if none matches), then one
   * RECOGNISED whose message is the test image's label followed by " Detected".
   */
  lemma TestEventsShape(test: string, gallery: seq<string>, isMatch: (string, string) -> bool,
                        origin: string)
    ensures var o := Scan(gallery, isMatch, test);
            var es := TestEvents(test, gallery, isMatch, origin);
            |es| == |o.compared| &&
            (o.matched <==> SomeMatch(gallery, isMatch, test)) &&
            (forall j :: 0 <= j < |es| ==>
               es[j] == if o.matched && j == |es| - 1 then Recognised(origin, test) else Intruder(origin))
  {
    var o := Scan(gallery, isMatch, test);
    ScanMatchedIff(gallery, isMatch, test);
    IntrudersAreIntruders(origin, if o.matched then |o.compared| - 1 else |o.compared|);
  }

  /**
   * The warnings of one test image: when some eligible gallery entry matches
   * it, one INTRUDER for each eligible entry before the first match `e[n]`,
   * then one RECOGNISED labelled with the test image's name; otherwise one
   * INTRUDER for every eligible entry.
   */
  lemma TestEventsFirstMatch(test: string, gallery: seq<string>, isMatch: (string, string) -> bool,
                             origin: string)
    ensures var e := Eligible(gallery);
            var es := TestEvents(test, gallery, isMatch, origin);
            (SomeMatch(gallery, isMatch, test) ==>
               exists n :: 0 <= n < |e| && isMatch(e[n], test) &&
                 (forall m :: 0 <= m < n ==> !isMatch(e[m], test)) &&
                 es == Intruders(origin, n) + [Recognised(origin, test)]) &&
            (!SomeMatch(gallery, isMatch, test) ==> es == Intruders(origin, |e|))
  {
    var o := Scan(gallery, isMatch, test);
    var e := Eligible(gallery);
    ScanFirstMatch(gallery, isMatch, test);
    ScanMatchedIff(gallery, isMatch, test);
    if o.matched {
      var n := |o.compared| - 1;
      assert o.compared[n] == e[n];
      assert forall m :: 0 <= m < n ==> o.compared[m] == e[m];
    }
  }

  /** One test image publishes one RECOGNISED warning if it is identified and none otherwise. */
  lemma TestEventsRecognised(test: string, gallery: seq<string>, isMatch: (string, string) -> bool,
                             origin: string)
    ensures CountRecognised(TestEvents(test, gallery, isMatch, origin))
            == if SomeMatch(gallery, isMatch, test) then 1 else 0
  {
    var o := Scan(gallery, isMatch, test);
    ScanMatchedIff(gallery, isMatch, test);
    IntrudersAreIntruders(origin, if o.matched then |o.compared| - 1 else |o.compared|);
    if o.matched {
      CountRecognisedAppend(Intruders(origin, |o.compared| - 1), [Recognised(origin, test)]);
    }
  }

  /** The run publishes exactly as many RECOGNISED warnings as it reports identified files. */
  lemma {:induction false} RecognisedCountIsIdentified(tests: seq<string>, gallery: seq<string>,
                                                      isMatch: (string, string) -> bool, origin: string)
    ensures CountRecognised(RunEvents(tests, gallery, isMatch, origin)) == Identified(tests, gallery, isMatch)
  {
    if tests != [] {
      var head := if IsEligible(tests[0]) then TestEvents(tests[0], gallery, isMatch, origin) else [];
      CountRecognisedAppend(head, RunEvents(tests[1..], gallery, isMatch, origin));
      TestEventsRecognised(tests[0], gallery, isMatch, origin);
      RecognisedCountIsIdentified(tests[1..], gallery, isMatch, origin);
    }
  }

  /** The gallery inferences of a walk are of the entries compared, and of nothing else. */
  lemma {:induction false} GalleryInputsNames(names: seq<string>)
    ensures forall x :: x in GalleryInputs(names) ==> x.GalleryImage? && x.name in names
  {
    if names != [] {
      GalleryInputsNames(names[..|names| - 1]);
    }
  }

  /** One test image causes an inference of itself and of eligible gallery entries only. */
  lemma TestInputsEligible(test: string, gallery: seq<string>, isMatch: (string, string) -> bool)
    ensures forall x :: x in TestInputs(test, gallery, isMatch) ==>
              x == TestImage(test) || (x.GalleryImage? && x.name in gallery && IsEligible(x.name))
  {
    var o := Scan(gallery, isMatch, test);
    ScanFirstMatch(gallery, isMatch, test);
    EligibleMembers(gallery);
    GalleryInputsNames(o.compared);
    assert forall g :: g in o.compared ==> g in Eligible(gallery);
  }

  /** A run infers only eligible test images and eligible gallery entries. */
  lemma {:induction false} RunInputsEligible(tests: seq<string>, gallery: seq<string>,
                                            isMatch: (string, string) -> bool)
    ensures forall x :: x in RunInputs(tests, gallery, isMatch) ==>
              (x.TestImage? && x.name in tests && IsEligible(x.name)) ||
              (x.GalleryImage? && x.name in gallery && IsEligible(x.name))
  {
    if tests != [] {
      RunInputsEligible(tests[1..], gallery, isMatch);
      TestInputsEligible(tests[0], gallery, isMatch);
      assert forall t :: t in tests[1..] ==> t in tests;
    }
  }

  /** Every warning one test image publishes is a CCTV warning from the given camera. */
  lemma TestEventsFromCamera(test: string, gallery: seq<string>, isMatch: (string, string) -> bool,
                             origin: string)
    ensures forall e :: e in TestEvents(test, gallery, isMatch, origin) ==> FromCamera(e, origin)
  {
    var o := Scan(gallery, isMatch, test);
    IntrudersAreIntruders(origin, if o.matched then |o.compared| - 1 else |o.compared|);
  }

  /** Every warning of a run is a CCTV warning from the given camera. */
  lemma {:induction false} RunEventsFromCamera(tests: seq<string>, gallery: seq<string>,
                                              isMatch: (string, string) -> bool, origin: string)
    ensures forall e :: e in RunEvents(tests, gallery, isMatch, origin) ==> FromCamera(e, origin)
  {
    if tests != [] {
      RunEventsFromCamera(tests[1..], gallery, isMatch, origin);
      TestEventsFromCamera(tests[0], gallery, isMatch, origin);
    }
  }

  /** The walk of the scenario below for "alice.jpg": the one gallery image matches. */
  lemma AliceWalk(isMatch: (string, string) -> bool, origin: string)
    requires isMatch("alice.jpg", "alice.jpg")
    ensures IsEligible("alice.jpg") && SomeMatch(["alice.jpg"], isMatch, "alice.jpg")
    ensures TestEvents("alice.jpg", ["alice.jpg"], isMatch, origin)
            == [Event("Warnings", "CCTV", origin, "RECOGNISED", "alice Detected")]
  {
    var gallery := ["alice.jpg"];
    assert IsEligible("alice.jpg") by { assert "alice.jpg"[5..] == ".jpg"; }
    assert Scan(gallery, isMatch, "alice.jpg") == ScanOutcome(gallery, true);
    ScanMatchedIff(gallery, isMatch, "alice.jpg");
    LabelExamples();
    assert "alice" + " Detected" == "alice Detected";
  }

  /** The walk of the scenario below for "bob.jpg": the one gallery image does not match. */
  lemma BobWalk(isMatch: (string, string) -> bool, origin: string)
    requires !isMatch("alice.jpg", "bob.jpg")
    ensures IsEligible("bob.jpg") && !SomeMatch(["alice.jpg"], isMatch, "bob.jpg")
    ensures TestEvents("bob.jpg", ["alice.jpg"], isMatch, origin) == [Intruder(origin)]
  {
    var gallery := ["alice.jpg"];
    assert IsEligible("alice.jpg") by { assert "alice.jpg"[5..] == ".jpg"; }
    assert IsEligible("bob.jpg") by { assert "bob.jpg"[3..] == ".jpg"; }
    assert gallery[1..] == [];
    assert Scan(gallery, isMatch, "bob.jpg") == ScanOutcome(gallery, false);
    ScanMatchedIff(gallery, isMatch, "bob.jpg");
    assert Intruders(origin, 1) == [] + [Intruder(origin)] == [Intruder(origin)];
  }

  /**
   * The batch scenario of a gallery holding "alice.jpg" and test images
   * "alice.jpg" and "bob.jpg", with a matcher that accepts the gallery image
   * for the first test image and rejects it for the second: two files are
   * tested, one is identified, and the warnings are a RECOGNISED "alice
   * Detected" followed by one INTRUDER.
   */
  lemma AliceAndBob(isMatch: (string, string) -> bool, origin: string)
    requires isMatch("alice.jpg", "alice.jpg") && !isMatch("alice.jpg", "bob.jpg")
    ensures |Eligible(["alice.jpg", "bob.jpg"])| == 2
    ensures Identified(["alice.jpg", "bob.jpg"], ["alice.jpg"], isMatch) == 1
    ensures RunEvents(["alice.jpg", "bob.jpg"], ["alice.jpg"], isMatch, origin)
            == [Event("Warnings", "CCTV", origin, "RECOGNISED", "alice Detected"), Intruder(origin)]
  {
    var gallery, tests := ["alice.jpg"], ["alice.jpg", "bob.jpg"];
    AliceWalk(isMatch, origin);
    BobWalk(isMatch, origin);
    assert tests[1..] == ["bob.jpg"] && tests[1..][1..] == [];
    assert RunEvents(tests[1..], gallery, isMatch, origin) == [Intruder(origin)];
    assert RunEvents(tests, gallery, isMatch, origin)
           == TestEvents("alice.jpg", gallery, isMatch, origin) + RunEvents(tests[1..], gallery, isMatch, origin);
  }
}
