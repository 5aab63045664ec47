/**
 * The gallery walk both classifiers run for one probe (a test image in
 * Classifier.py:159-193, a face crop in WebCam.py:191-229): directory entries
 * are taken in listing order, ineligible ones are skipped, each eligible one
 * is compared with the probe, and the walk stops at the first match.
 * `isMatch(entry, probe)` stands for `FacenetHelpers.match` of the entry's
 * embedding and the probe's, as a function of the entry's name and the probe.
 */
module Gallery {
  import opened FileNames

  /** The entries compared with the probe, in order, and whether the last of them matched. */
  datatype ScanOutcome = ScanOutcome(compared: seq<string>, matched: bool)

  /** First-match-wins walk over `gallery`. */
  function Scan<P>(gallery: seq<string>, isMatch: (string, P) -> bool, probe: P): (o: ScanOutcome)
    ensures o.matched ==> |o.compared| > 0
  {
    if gallery == [] then ScanOutcome([], false)
    else if !IsEligible(gallery[0]) then Scan(gallery[1..], isMatch, probe)
    else if isMatch(gallery[0], probe) then ScanOutcome([gallery[0]], true)
    else
      var rest := Scan(gallery[1..], isMatch, probe);
      ScanOutcome([gallery[0]] + rest.compared, rest.matched)
  }

  /**
   * The entries the walk compares are a prefix of the eligible entries, in
   * order; the last one compared is the only one that matches, if one matches
   * at all; when none matches, every eligible entry was compared. So entries
   * after the first match are never compared.
   */
  lemma {:induction false} ScanFirstMatch<P>(gallery: seq<string>, isMatch: (string, P) -> bool, probe: P)
    ensures var o := Scan(gallery, isMatch, probe);
            |o.compared| <= |Eligible(gallery)| &&
            o.compared == Eligible(gallery)[..|o.compared|] &&
            (forall j :: 0 <= j < |o.compared| ==>
               (isMatch(o.compared[j], probe) <==> o.matched && j == |o.compared| - 1)) &&
            (o.matched ==> |o.compared| > 0) &&
            (!o.matched ==> o.compared == Eligible(gallery))
  {
    if gallery != [] {
      ScanFirstMatch(gallery[1..], isMatch, probe);
      if IsEligible(gallery[0]) && !isMatch(gallery[0], probe) {
        var rest := Scan(gallery[1..], isMatch, probe);
        var o := Scan(gallery, isMatch, probe);
        assert Eligible(gallery) == [gallery[0]] + Eligible(gallery[1..]);
        assert o.compared == Eligible(gallery)[..|o.compared|];
        assert forall j :: 1 <= j < |o.compared| ==> o.compared[j] == rest.compared[j - 1];
      }
    }
  }

  /** One step of the walk at position `j` of the listing. */
  lemma ScanStep<P>(gallery: seq<string>, j: nat, isMatch: (string, P) -> bool, probe: P)
    requires j < |gallery|
    ensures Scan(gallery[j..], isMatch, probe) ==
              if !IsEligible(gallery[j]) then Scan(gallery[j + 1..], isMatch, probe)
              else if isMatch(gallery[j], probe) then ScanOutcome([gallery[j]], true)
              else ScanOutcome([gallery[j]] + Scan(gallery[j + 1..], isMatch, probe).compared,
                               Scan(gallery[j + 1..], isMatch, probe).matched)
  {
    assert gallery[j..][1..] == gallery[j + 1..];
  }

  /**
   * The walk as the loops run it: from position `j` of the listing, with the
   * entries `done` already compared and found not to match.
   */
  function ScanFrom<P>(gallery: seq<string>, j: nat, isMatch: (string, P) -> bool, probe: P,
                       done: seq<string>): ScanOutcome
    decreases |gallery| - j
  {
    if j >= |gallery| then ScanOutcome(done, false)
    else if !IsEligible(gallery[j]) then ScanFrom(gallery, j + 1, isMatch, probe, done)
    else if isMatch(gallery[j], probe) then ScanOutcome(done + [gallery[j]], true)
    else ScanFrom(gallery, j + 1, isMatch, probe, done + [gallery[j]])
  }

  /** Resuming the walk at `j` after `done` compares `done` and then what the walk of the rest compares. */
  lemma {:induction false} ScanFromResumes<P>(gallery: seq<string>, j: nat, isMatch: (string, P) -> bool,
                                              probe: P, done: seq<string>)
    requires j <= |gallery|
    ensures var rest := Scan(gallery[j..], isMatch, probe);
            ScanFrom(gallery, j, isMatch, probe, done) == ScanOutcome(done + rest.compared, rest.matched)
    decreases |gallery| - j
  {
    if j == |gallery| {
      assert gallery[j..] == [];
      assert done + [] == done;
    } else {
      ScanStep(gallery, j, isMatch, probe);
      var entry := gallery[j];
      if !IsEligible(entry) {
        ScanFromResumes(gallery, j + 1, isMatch, probe, done);
      } else if !isMatch(entry, probe) {
        ScanFromResumes(gallery, j + 1, isMatch, probe, done + [entry]);
        var rest := Scan(gallery[j + 1..], isMatch, probe).compared;
        assert done + [entry] + rest == done + ([entry] + rest);
      }
    }
  }

  /** The walk from the start of the listing, with nothing compared yet, is `Scan`. */
  lemma ScanFromStart<P>(gallery: seq<string>, isMatch: (string, P) -> bool, probe: P)
    ensures ScanFrom(gallery, 0, isMatch, probe, []) == Scan(gallery, isMatch, probe)
  {
    ScanFromResumes(gallery, 0, isMatch, probe, []);
    assert gallery[0..] == gallery;
    assert [] + Scan(gallery, isMatch, probe).compared == Scan(gallery, isMatch, probe).compared;
  }

  /** Some eligible entry of the gallery matches the probe. */
  predicate SomeMatch<P>(gallery: seq<string>, isMatch: (string, P) -> bool, probe: P)
  {
    exists j :: 0 <= j < |gallery| && IsEligible(gallery[j]) && isMatch(gallery[j], probe)
  }

  /** The walk reports a match exactly when some eligible entry matches. */
  lemma ScanMatchedIff<P>(gallery: seq<string>, isMatch: (string, P) -> bool, probe: P)
    ensures Scan(gallery, isMatch, probe).matched <==> SomeMatch(gallery, isMatch, probe)
  {
    var o := Scan(gallery, isMatch, probe);
    var e := Eligible(gallery);
    ScanFirstMatch(gallery, isMatch, probe);
    EligibleMembers(gallery);
    if o.matched {
      var x := o.compared[|o.compared| - 1];
      assert x in e;
      var j :| 0 <= j < |gallery| && gallery[j] == x;
    }
  }
}
