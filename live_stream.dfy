/**
 * The per-frame body of the live stream in WebCam.py (`CamHandler.do_GET`,
 * lines 164-229): every face the detector reports in the frame is cropped
 * with a margin, and the crop is compared with the gallery entries in listing
 * order until the first match. Each failed comparison publishes an INTRUDER
 * warning and the match publishes a RECOGNISED warning labelled with the
 * GALLERY entry's name. Every face runs a walk of its own.
 */
module LiveStream {
  import opened FileNames
  import opened Crop
  import opened Events
  import opened Lifecycle
  import opened Gallery
  import opened Sequences

  /** The warnings one face crop publishes. */
  function FaceEvents(w: Window, gallery: seq<string>, isMatch: (string, Window) -> bool,
                      origin: string): seq<Event>
  {
    var o := Scan(gallery, isMatch, w);
    if o.matched then Intruders(origin, |o.compared| - 1) + [Recognised(origin, o.compared[|o.compared| - 1])]
    else Intruders(origin, |o.compared|)
  }

  /**
   * The inferences of a walk for one crop: for each gallery entry compared,
   * the entry and then the crop, in the order the call to `match` evaluates
   * its two arguments.
   */
  function FaceInputs(names: seq<string>, w: Window): seq<Input>
  {
    if names == [] then []
    else FaceInputs(names[..|names| - 1], w) + [GalleryImage(names[|names| - 1]), FaceCrop(w)]
  }

  lemma FaceInputsSnoc(names: seq<string>, name: string, w: Window)
    ensures FaceInputs(names + [name], w) == FaceInputs(names, w) + [GalleryImage(name), FaceCrop(w)]
  {
    assert (names + [name])[..|names|] == names;
  }

  /** Appending the inferences of one more comparison to a log that ends with those of `names`. */
  lemma FaceInputsGrow(prefix: seq<Input>, names: seq<string>, name: string, w: Window)
    ensures prefix + FaceInputs(names, w) + [GalleryImage(name), FaceCrop(w)] == prefix + FaceInputs(names + [name], w)
  {
    FaceInputsSnoc(names, name, w);
  }

  /** All warnings of one frame, face by face in detection order. */
  function FrameEvents(rects: seq<Rect>, gallery: seq<string>, isMatch: (string, Window) -> bool,
                       origin: string): seq<Event>
  {
    if rects == [] then []
    else FaceEvents(CropWindow(rects[0]), gallery, isMatch, origin)
         + FrameEvents(rects[1..], gallery, isMatch, origin)
  }

  /** All inferences of one frame, face by face in detection order. */
  function FrameInputs(rects: seq<Rect>, gallery: seq<string>, isMatch: (string, Window) -> bool): seq<Input>
  {
    if rects == [] then []
    else FaceInputs(Scan(gallery, isMatch, CropWindow(rects[0])).compared, CropWindow(rects[0]))
         + FrameInputs(rects[1..], gallery, isMatch)
  }

  /** The number of faces of the frame whose crop some eligible gallery entry matches. */
  function Recognisable(rects: seq<Rect>, gallery: seq<string>, isMatch: (string, Window) -> bool): nat
  {
    if rects == [] then 0
    else (if SomeMatch(gallery, isMatch, CropWindow(rects[0])) then 1 else 0)
         + Recognisable(rects[1..], gallery, isMatch)
  }

  /** How the frame summaries split off the face at position `i`. */
  lemma FrameStep(rects: seq<Rect>, i: nat, gallery: seq<string>, isMatch: (string, Window) -> bool,
                  origin: string)
    requires i < |rects|
    ensures FrameEvents(rects[i..], gallery, isMatch, origin)
            == FaceEvents(CropWindow(rects[i]), gallery, isMatch, origin)
               + FrameEvents(rects[i + 1..], gallery, isMatch, origin)
    ensures FrameInputs(rects[i..], gallery, isMatch)
            == FaceInputs(Scan(gallery, isMatch, CropWindow(rects[i])).compared, CropWindow(rects[i]))
               + FrameInputs(rects[i + 1..], gallery, isMatch)
  {
    assert rects[i..][1..] == rects[i + 1..];
  }

  /** `infer` of the gallery entry, then of the crop, as `match`'s arguments are evaluated. */
  method InferPair(c: Classifier, entry: string, w: Window)
    requires c.Valid() && c.state == Allocated
    modifies c
    ensures c.Valid() && c.state == Allocated && c.graphFile == old(c.graphFile)
    ensures c.inferences == old(c.inferences) + [GalleryImage(entry), FaceCrop(w)]
    ensures c.calls == old(c.calls) && c.published == old(c.published)
  {
    c.Infer(GalleryImage(entry));
    c.Infer(FaceCrop(w));
  }

  /**
   * The gallery loop for one face crop `w` (lines 191-229): each eligible
   * entry of `valid` is inferred, then the crop is, and the two embeddings
   * are compared; a failed comparison publishes INTRUDER, the first match
   * publishes RECOGNISED with the entry's label and ends the walk. Ineligible
   * entries ("NO VALID ID") publish nothing. `walked` is what it compared.
   */
  method WalkFace(c: Classifier, w: Window, valid: seq<string>,
                  isMatch: (string, Window) -> bool, origin: string)
    returns (found: bool, ghost walked: seq<string>)
    requires c.Valid() && c.state == Allocated
    modifies c
    ensures ScanFrom(valid, 0, isMatch, w, []) == ScanOutcome(walked, found)
    ensures c.Valid() && c.state == Allocated && c.graphFile == old(c.graphFile)
    ensures found ==> (|walked| > 0 &&
      c.published == old(c.published) + Intruders(origin, |walked| - 1) + [Recognised(origin, walked[|walked| - 1])])
    ensures !found ==> c.published == old(c.published) + Intruders(origin, |walked|)
    ensures c.calls == old(c.calls)
    ensures c.inferences == old(c.inferences) + FaceInputs(walked, w)
  {
    walked := [];
    found := false;
    var j := 0;
    while j < |valid|
      invariant 0 <= j <= |valid|
      invariant c.Valid() && c.state == Allocated && c.graphFile == old(c.graphFile)
      invariant ScanFrom(valid, 0, isMatch, w, []) == ScanFrom(valid, j, isMatch, w, walked)
      invariant c.published == old(c.published) + Intruders(origin, |walked|)
      invariant c.calls == old(c.calls)
      invariant c.inferences == old(c.inferences) + FaceInputs(walked, w)
    {
      var entry := valid[j];
      if IsEligible(entry) {
        InferPair(c, entry, w);
        FaceInputsGrow(old(c.inferences), walked, entry, w);
        ghost var before := walked;
        walked := walked + [entry];
        if isMatch(entry, w) {
          c.Publish(Recognised(origin, entry));
          found := true;
          break;
        }
        c.Publish(Intruder(origin));
        WarningsGrow(old(c.published), origin, |before|);
      }
      j := j + 1;
    }
  }

  /** The walk for one face crop; returns whether a match was found. */
  method ScanFace(c: Classifier, w: Window, valid: seq<string>,
                  isMatch: (string, Window) -> bool, origin: string)
    returns (found: bool)
    requires c.Valid() && c.state == Allocated
    modifies c
    ensures found == SomeMatch(valid, isMatch, w)
    ensures c.Valid() && c.state == Allocated && c.graphFile == old(c.graphFile)
    ensures c.published == old(c.published) + FaceEvents(w, valid, isMatch, origin)
    ensures c.calls == old(c.calls)
    ensures c.inferences == old(c.inferences) + FaceInputs(Scan(valid, isMatch, w).compared, w)
  {
    ghost var walked;
    found, walked := WalkFace(c, w, valid, isMatch, origin);
    ScanFromStart(valid, isMatch, w);
    ScanMatchedIff(valid, isMatch, w);
    if found {
      AppendAssoc(old(c.published), Intruders(origin, |walked| - 1), [Recognised(origin, walked[|walked| - 1])]);
    }
  }

  /**
   * One pass of the frame loop (lines 164-229): `rects` are the faces the
   * detector reports, `valid` the gallery directory's listing,
   * `isMatch(valid, crop)` the match decision and `origin` camera 0's ID.
   * Each face is cropped and walked against the gallery in turn.
   */
  method ProcessFrame(c: Classifier, rects: seq<Rect>, valid: seq<string>,
                      isMatch: (string, Window) -> bool, origin: string)
    requires c.Valid() && c.state == Allocated
    modifies c
    ensures c.Valid() && c.state == Allocated && c.graphFile == old(c.graphFile)
    ensures c.published == old(c.published) + FrameEvents(rects, valid, isMatch, origin)
    ensures c.calls == old(c.calls)
    ensures c.inferences == old(c.inferences) + FrameInputs(rects, valid, isMatch)
  {
    var i := 0;
    while i < |rects|
      invariant 0 <= i <= |rects|
      invariant c.Valid() && c.state == Allocated && c.graphFile == old(c.graphFile)
      invariant old(c.published) + FrameEvents(rects, valid, isMatch, origin)
                == c.published + FrameEvents(rects[i..], valid, isMatch, origin)
      invariant c.calls == old(c.calls)
      invariant old(c.inferences) + FrameInputs(rects, valid, isMatch)
                == c.inferences + FrameInputs(rects[i..], valid, isMatch)
    {
      var w := CropWindow(rects[i]);
      FrameStep(rects, i, valid, isMatch, origin);
      ghost var inferencesBefore, publishedBefore := c.inferences, c.published;
      var _ := ScanFace(c, w, valid, isMatch, origin);
      AppendAssoc(inferencesBefore, FaceInputs(Scan(valid, isMatch, w).compared, w),
                  FrameInputs(rects[i + 1..], valid, isMatch));
      AppendAssoc(publishedBefore, FaceEvents(w, valid, isMatch, origin),
                  FrameEvents(rects[i + 1..], valid, isMatch, origin));
      i := i + 1;
    }
    assert rects[i..] == [];
  }

  /**
   * The warnings of one face: when some eligible gallery entry matches the
   * crop, one INTRUDER for each eligible entry before the first match `e[n]`,
   * then one RECOGNISED labelled with that entry's name; otherwise one
   * INTRUDER for every eligible entry.
   */
  lemma FaceEventsFirstMatch(w: Window, gallery: seq<string>, isMatch: (string, Window) -> bool,
                             origin: string)
    ensures var e := Eligible(gallery);
            var es := FaceEvents(w, gallery, isMatch, origin);
            (SomeMatch(gallery, isMatch, w) ==>
               exists n :: 0 <= n < |e| && isMatch(e[n], w) &&
                 (forall m :: 0 <= m < n ==> !isMatch(e[m], w)) &&
                 es == Intruders(origin, n) + [Recognised(origin, e[n])]) &&
            (!SomeMatch(gallery, isMatch, w) ==> es == Intruders(origin, |e|))
  {
    var o := Scan(gallery, isMatch, w);
    var e := Eligible(gallery);
    ScanFirstMatch(gallery, isMatch, w);
    ScanMatchedIff(gallery, isMatch, w);
    if o.matched {
      var n := |o.compared| - 1;
      assert o.compared[n] == e[n];
      assert forall m :: 0 <= m < n ==> o.compared[m] == e[m];
    }
  }

  /** One face publishes one RECOGNISED warning if its crop is matched and none otherwise. */
  lemma FaceEventsRecognised(w: Window, gallery: seq<string>, isMatch: (string, Window) -> bool,
                             origin: string)
    ensures CountRecognised(FaceEvents(w, gallery, isMatch, origin))
            == if SomeMatch(gallery, isMatch, w) then 1 else 0
  {
    var o := Scan(gallery, isMatch, w);
    ScanMatchedIff(gallery, isMatch, w);
    IntrudersAreIntruders(origin, if o.matched then |o.compared| - 1 else |o.compared|);
    if o.matched {
      CountRecognisedAppend(Intruders(origin, |o.compared| - 1),
                            [Recognised(origin, o.compared[|o.compared| - 1])]);
    }
  }

  /** The faces of a frame are walked independently: a frame's warnings are those of its parts. */
  lemma {:induction false} FrameEventsAppend(r1: seq<Rect>, r2: seq<Rect>, gallery: seq<string>,
                                            isMatch: (string, Window) -> bool, origin: string)
    ensures FrameEvents(r1 + r2, gallery, isMatch, origin)
            == FrameEvents(r1, gallery, isMatch, origin) + FrameEvents(r2, gallery, isMatch, origin)
  {
    if r1 == [] {
      assert r1 + r2 == r2;
    } else {
      assert (r1 + r2)[0] == r1[0];
      assert (r1 + r2)[1..] == r1[1..] + r2;
      FrameEventsAppend(r1[1..], r2, gallery, isMatch, origin);
      AppendAssoc(FaceEvents(CropWindow(r1[0]), gallery, isMatch, origin),
                  FrameEvents(r1[1..], gallery, isMatch, origin), FrameEvents(r2, gallery, isMatch, origin));
    }
  }

  /**
   * A frame publishes exactly as many RECOGNISED warnings as it has faces
   * whose crop is matched, so at most one per detected face, and none at
   * all when no face is detected.
   */
  lemma {:induction false} FrameRecognisedCount(rects: seq<Rect>, gallery: seq<string>,
                                               isMatch: (string, Window) -> bool, origin: string)
    ensures CountRecognised(FrameEvents(rects, gallery, isMatch, origin)) == Recognisable(rects, gallery, isMatch)
    ensures Recognisable(rects, gallery, isMatch) <= |rects|
  {
    if rects != [] {
      var w := CropWindow(rects[0]);
      CountRecognisedAppend(FaceEvents(w, gallery, isMatch, origin), FrameEvents(rects[1..], gallery, isMatch, origin));
      FaceEventsRecognised(w, gallery, isMatch, origin);
      FrameRecognisedCount(rects[1..], gallery, isMatch, origin);
    }
  }

  /** The inferences of a walk for one crop are of the entries compared and of the crop. */
  lemma {:induction false} FaceInputsNames(names: seq<string>, w: Window)
    ensures forall x :: x in FaceInputs(names, w) ==> x == FaceCrop(w) || (x.GalleryImage? && x.name in names)
  {
    if names != [] {
      FaceInputsNames(names[..|names| - 1], w);
    }
  }

  /** A frame infers only crops and eligible gallery entries. */
  lemma {:induction false} FrameInputsEligible(rects: seq<Rect>, gallery: seq<string>,
                                              isMatch: (string, Window) -> bool)
    ensures forall x :: x in FrameInputs(rects, gallery, isMatch) ==>
              x.FaceCrop? || (x.GalleryImage? && x.name in gallery && IsEligible(x.name))
  {
    if rects != [] {
      var w := CropWindow(rects[0]);
      var o := Scan(gallery, isMatch, w);
      FrameInputsEligible(rects[1..], gallery, isMatch);
      ScanFirstMatch(gallery, isMatch, w);
      EligibleMembers(gallery);
      FaceInputsNames(o.compared, w);
      assert forall g :: g in o.compared ==> g in Eligible(gallery);
    }
  }

  /** Every warning one face publishes is a CCTV warning from the given camera. */
  lemma FaceEventsFromCamera(w: Window, gallery: seq<string>, isMatch: (string, Window) -> bool,
                             origin: string)
    ensures forall e :: e in FaceEvents(w, gallery, isMatch, origin) ==> FromCamera(e, origin)
  {
    var o := Scan(gallery, isMatch, w);
    IntrudersAreIntruders(origin, if o.matched then |o.compared| - 1 else |o.compared|);
  }

  /** Every warning of a frame is a CCTV warning from the given camera. */
  lemma {:induction false} FrameEventsFromCamera(rects: seq<Rect>, gallery: seq<string>,
                                                isMatch: (string, Window) -> bool, origin: string)
    ensures forall e :: e in FrameEvents(rects, gallery, isMatch, origin) ==> FromCamera(e, origin)
  {
    if rects != [] {
      FrameEventsFromCamera(rects[1..], gallery, isMatch, origin);
      FaceEventsFromCamera(CropWindow(rects[0]), gallery, isMatch, origin);
    }
  }
}
