/**
 * File-name helpers shared by the batch classifier (Classifier.py) and the
 * live stream (WebCam.py): the image-extension filter applied to every
 * directory entry and the label derived with `rsplit('.', 1)[0]`.
 */
module FileNames {

  /** `s.endswith(suffix)`: case-sensitive suffix test. */
  predicate EndsWith(s: string, suffix: string)
  {
    |suffix| <= |s| && s[|s| - |suffix|..] == suffix
  }

  /** The extensions, without their dot, of the files that are tried. */
  const ImageExtensions: set<string> := {"jpg", "jpeg", "png", "gif"}

  /** A directory entry is an image the classifier tries. */
  predicate IsEligible(name: string)
  {
    EndsWith(name, ".jpg") || EndsWith(name, ".jpeg") || EndsWith(name, ".png") || EndsWith(name, ".gif")
  }

  /** The filter and `ImageExtensions` agree: a name is eligible exactly when it ends in "." and one of the extensions. */
  lemma EligibleIffExtension(name: string)
    ensures IsEligible(name) <==> exists ext :: ext in ImageExtensions && EndsWith(name, "." + ext)
  {
    assert "." + "jpg" == ".jpg" && "." + "jpeg" == ".jpeg";
    assert "." + "png" == ".png" && "." + "gif" == ".gif";
    if IsEligible(name) {
      var ext := if EndsWith(name, ".jpg") then "jpg"
                 else if EndsWith(name, ".jpeg") then "jpeg"
                 else if EndsWith(name, ".png") then "png"
                 else "gif";
      assert ext in ImageExtensions && EndsWith(name, "." + ext);
    }
  }

  /** The eligible entries of a directory listing, in listing order. */
  function Eligible(names: seq<string>): seq<string>
  {
    if names == [] then []
    else (if IsEligible(names[0]) then [names[0]] else []) + Eligible(names[1..])
  }

  /** The eligible entries are exactly the listing's entries that pass the filter. */
  lemma {:induction false} EligibleMembers(names: seq<string>)
    ensures |Eligible(names)| <= |names|
    ensures forall x :: x in Eligible(names) <==> x in names && IsEligible(x)
  {
    if names != [] {
      EligibleMembers(names[1..]);
      assert names == [names[0]] + names[1..];
    }
  }

  /** Index of the last '.' of `s`, or -1 when it has none. */
  function LastDot(s: string): (i: int)
    ensures -1 <= i < |s|
    ensures i >= 0 ==> s[i] == '.'
    ensures i < 0 ==> '.' !in s
    ensures forall k :: i < k < |s| ==> s[k] != '.'
  {
    if s == [] then -1
    else if s[|s| - 1] == '.' then |s| - 1
    else LastDot(s[..|s| - 1])
  }

  /**
   * `name.rsplit('.', 1)[0]`: the part of `name` before its last dot, or the
   * whole name when it has no dot.
   */
  function Label(name: string): (r: string)
    ensures |r| <= |name| && r == name[..|r|]
    ensures '.' in name ==> |r| < |name| && name[|r|] == '.' && '.' !in name[|r| + 1..]
    ensures '.' !in name ==> r == name
  {
    var i := LastDot(name);
    if i < 0 then name else name[..i]
  }

  /** Removing an extension that has no dot of its own gives back the stem. */
  lemma LabelOfStem(stem: string, ext: string)
    requires '.' !in ext
    ensures Label(stem + "." + ext) == stem
  {
    var name := stem + "." + ext;
    assert name[|stem|] == '.';
    assert name[..|stem|] == stem;
  }

  /** Only the last extension is dropped, and a name without a dot is its own label. */
  lemma LabelExamples()
    ensures Label("alice.jpg") == "alice"
    ensures Label("archive.tar.gz") == "archive.tar"
    ensures Label("README") == "README"
  {
    LabelOfStem("alice", "jpg");
    assert "alice" + "." + "jpg" == "alice.jpg";
    LabelOfStem("archive.tar", "gz");
    assert "archive.tar" + "." + "gz" == "archive.tar.gz";
    assert '.' !in "README";
  }

  /** A name ending in "." + `ext`, where `ext` has no dot, is labelled with what precedes that suffix. */
  lemma LabelOfSuffix(name: string, ext: string)
    requires '.' !in ext && EndsWith(name, "." + ext)
    ensures |Label(name)| == |name| - |ext| - 1
    ensures name == Label(name) + "." + ext
  {
    var stem := name[..|name| - |ext| - 1];
    assert name == stem + "." + ext;
    LabelOfStem(stem, ext);
  }

  /**
   * An eligible name always has a dot, and its label is the name with the
   * image extension (and that dot) taken off.
   */
  lemma EligibleLabelDropsExtension(name: string)
    requires IsEligible(name)
    ensures |Label(name)| < |name|
    ensures name == Label(name) + "." + name[|Label(name)| + 1..]
    ensures name[|Label(name)| + 1..] in ImageExtensions
  {
    var ext := if EndsWith(name, ".jpg") then "jpg"
               else if EndsWith(name, ".jpeg") then "jpeg"
               else if EndsWith(name, ".png") then "png"
               else "gif";
    LabelOfSuffix(name, ext);
    assert name[|Label(name)| + 1..] == ext;
  }
}
