/**
 * The warnings both classifiers publish on the IoT JumpWay "Warnings" channel
 * (Classifier.py:170-193, WebCam.py:202-226).
 */
module Events {
  import opened FileNames

  /** One `publishToDeviceChannel(channel, payload)` call, payload fields by name. */
  datatype Event = Event(channel: string, warningType: string, warningOrigin: string,
                         warningValue: string, warningMessage: string)

  /** The warning for a match, labelled with `name` up to its last dot. */
  function Recognised(origin: string, name: string): Event
  {
    Event("Warnings", "CCTV", origin, "RECOGNISED", Label(name) + " Detected")
  }

  /** The warning for a comparison that does not match. */
  function Intruder(origin: string): Event
  {
    Event("Warnings", "CCTV", origin, "INTRUDER", "INTRUDER")
  }

  /** The INTRUDER warnings of `n` failed comparisons, in order. */
  function Intruders(origin: string, n: nat): seq<Event>
  {
    if n == 0 then [] else Intruders(origin, n - 1) + [Intruder(origin)]
  }

  /** Appending one INTRUDER warning to a log that ends with `n` of them. */
  lemma WarningsGrow(prefix: seq<Event>, origin: string, n: nat)
    ensures prefix + Intruders(origin, n) + [Intruder(origin)] == prefix + Intruders(origin, n + 1)
  {
  }

  /** `Intruders` holds `n` INTRUDER warnings and nothing else, so no RECOGNISED one. */
  lemma {:induction false} IntrudersAreIntruders(origin: string, n: nat)
    ensures |Intruders(origin, n)| == n
    ensures forall j :: 0 <= j < n ==> Intruders(origin, n)[j] == Intruder(origin)
    ensures CountRecognised(Intruders(origin, n)) == 0
  {
    if n > 0 {
      IntrudersAreIntruders(origin, n - 1);
    }
  }

  predicate IsRecognised(e: Event)
  {
    e.warningValue == "RECOGNISED"
  }

  /** Every warning carries the CCTV type and the camera's ID as origin. */
  predicate FromCamera(e: Event, origin: string)
  {
    e.channel == "Warnings" && e.warningType == "CCTV" && e.warningOrigin == origin
  }

  /** The number of RECOGNISED warnings in a sequence of warnings. */
  function CountRecognised(es: seq<Event>): (n: nat)
    ensures n <= |es|
    ensures n == 0 <==> forall j :: 0 <= j < |es| ==> !IsRecognised(es[j])
  {
    if es == [] then 0 else (if IsRecognised(es[0]) then 1 else 0) + CountRecognised(es[1..])
  }

  lemma {:induction false} CountRecognisedAppend(a: seq<Event>, b: seq<Event>)
    ensures CountRecognised(a + b) == CountRecognised(a) + CountRecognised(b)
  {
    if a != [] {
      assert (a + b)[1..] == a[1..] + b;
      CountRecognisedAppend(a[1..], b);
    } else {
      assert a + b == b;
    }
  }
}
