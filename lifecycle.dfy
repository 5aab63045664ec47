/**
 * The `Classifier` object of Classifier.py and WebCam.py (identical in both
 * files as far as the accelerator is concerned): it finds and opens the first
 * Movidius device, allocates the Facenet graph on it, runs inferences, and at
 * shutdown deallocates the graph and closes the device. The lifecycle calls
 * made into the device library are recorded in `calls`; `Run` replays them
 * through the lifecycle state machine, and the class keeps `state` equal to
 * the replay. The inputs the graph is run on are recorded in `inferences`.
 * The warnings sent through the MQTT client are accumulated in `published`.
 */
module Lifecycle {
  import opened Options
  import opened Crop
  import opened Events

  type DeviceName = string

  /** What an inference is run on: a test image, a gallery image or a face crop of the current frame. */
  datatype Input = TestImage(name: string) | GalleryImage(name: string) | FaceCrop(window: Window)

  /** One lifecycle call into the device library. */
  datatype Call =
    | Enumerate(devices: seq<DeviceName>)
    | Open(device: DeviceName)
    | Allocate(graph: seq<bv8>)
    | Deallocate
    | Close

  datatype State =
    | Uninitialised
    | Quit                           // no device was found; the program has exited
    | Enumerated(first: DeviceName)  // the first device is chosen
    | Opened
    | Allocated
    | Released                       // graph deallocated, device still open
    | Closed

  /** The lifecycle transition taken by one call, or None when the call is illegal in `s`. */
  function Step(s: State, c: Call): Option<State>
  {
    match c
    case Enumerate(ds) =>
      if s != Uninitialised then None else if ds == [] then Some(Quit) else Some(Enumerated(ds[0]))
    case Open(d) => if s == Enumerated(d) then Some(Opened) else None
    case Allocate(_) => if s == Opened then Some(Allocated) else None
    case Deallocate => if s == Allocated then Some(Released) else None
    case Close => if s == Released then Some(Closed) else None
  }

  /** The state reached by replaying `calls` from `Uninitialised`, or None if some call is illegal. */
  function Run(calls: seq<Call>): Option<State>
  {
    if calls == [] then Some(Uninitialised)
    else match Run(calls[..|calls| - 1])
      case None => None
      case Some(s) => Step(s, calls[|calls| - 1])
  }

  /** The first two calls enumerate at least one device and open the first of them. */
  ghost predicate OpensFirst(calls: seq<Call>)
  {
    |calls| >= 2 && calls[0].Enumerate? && calls[0].devices != [] && calls[1] == Open(calls[0].devices[0])
  }

  /** The first device opened, then the graph allocated. */
  ghost predicate Serving(calls: seq<Call>)
  {
    |calls| == 3 && OpensFirst(calls) && calls[2].Allocate?
  }

  /** The traces that lead to each state, written out. */
  ghost predicate Shape(s: State, calls: seq<Call>)
  {
    match s
    case Uninitialised => calls == []
    case Quit => calls == [Enumerate([])]
    case Enumerated(first) =>
      |calls| == 1 && calls[0].Enumerate? && calls[0].devices != [] && calls[0].devices[0] == first
    case Opened => |calls| == 2 && OpensFirst(calls)
    case Allocated => Serving(calls)
    case Released => |calls| == 4 && Serving(calls[..3]) && calls[3] == Deallocate
    case Closed => |calls| == 5 && Serving(calls[..3]) && calls[3] == Deallocate && calls[4] == Close
  }

  /** Every trace of the shape written out for `s` is legal and ends in `s`. */
  lemma {:induction false} ShapeRuns(calls: seq<Call>, s: State)
    requires Shape(s, calls)
    ensures Run(calls) == Some(s)
  {
    match s
    case Uninitialised =>
    case Quit => assert calls[..0] == [];
    case Enumerated(_) => assert calls[..0] == [];
    case Opened => ShapeRuns(calls[..1], Enumerated(calls[0].devices[0]));
    case Allocated => ShapeRuns(calls[..2], Opened);
    case Released => ShapeRuns(calls[..3], Allocated);
    case Closed =>
      assert calls[..4][..3] == calls[..3];
      ShapeRuns(calls[..4], Released);
  }

  /** Every legal trace has the shape written out for the state it ends in. */
  lemma {:induction false} RunsShape(calls: seq<Call>)
    requires Run(calls).Some?
    ensures Shape(Run(calls).value, calls)
  {
    if calls != [] {
      var init := calls[..|calls| - 1];
      var last := calls[|calls| - 1];
      RunsShape(init);
      assert calls == init + [last];
      match Run(init).value
      case Allocated => assert calls[..3] == init;
      case Released => assert calls[..3] == init[..3];
      case _ =>
    }
  }

  /** A trace is legal and ends in `s` exactly when it has the shape written out for `s`. */
  lemma RunShape(calls: seq<Call>, s: State)
    ensures Run(calls) == Some(s) <==> Shape(s, calls)
  {
    if Shape(s, calls) {
      ShapeRuns(calls, s);
    }
    if Run(calls) == Some(s) {
      RunsShape(calls);
    }
  }

  /** Once no device was found, nothing more happens: no open and no allocation. */
  lemma NoDeviceStopsAll(calls: seq<Call>)
    requires Run(calls).Some? && |calls| > 0 && calls[0] == Enumerate([])
    ensures calls == [Enumerate([])] && Run(calls) == Some(Quit)
  {
    RunShape(calls, Run(calls).value);
  }

  /** In every legal trace the graph is allocated only right after the first device was opened. */
  lemma OpenBeforeAllocate(calls: seq<Call>, k: nat)
    requires Run(calls).Some? && k < |calls| && calls[k].Allocate?
    ensures k == 2 && OpensFirst(calls)
  {
    RunShape(calls, Run(calls).value);
  }

  /** In every legal trace the device is closed only right after the graph was deallocated. */
  lemma DeallocateBeforeClose(calls: seq<Call>, k: nat)
    requires Run(calls).Some? && k < |calls| && calls[k] == Close
    ensures k == 4 && calls[3] == Deallocate && Run(calls) == Some(Closed)
  {
    var s := Run(calls).value;
    RunShape(calls, s);
  }

  class Classifier {
    var state: State
    var calls: seq<Call>
    var inferences: seq<Input>
    var graphFile: seq<bv8>
    var published: seq<Event>

    /** The state is the one the recorded device calls lead to. */
    ghost predicate Valid()
      reads this
    {
      Run(calls) == Some(state)
    }

    /**
     * `Classifier()`: check for devices, then (unless the program quit) load
     * the graph file and allocate it. `devices` is what the device library
     * enumerates and `graph` the contents of the configured graph file.
     */
    constructor (devices: seq<DeviceName>, graph: seq<bv8>)
      ensures Valid() && published == [] && inferences == []
      ensures devices == [] ==> state == Quit && calls == [Enumerate([])] && graphFile == []
      ensures devices != [] ==>
        state == Allocated && graphFile == graph &&
        calls == [Enumerate(devices), Open(devices[0]), Allocate(graph)]
    {
      state, calls, inferences, graphFile, published := Uninitialised, [], [], [], [];
      new;
      CheckDevices(devices);
      if state != Quit {
        LoadRequirements(graph);
      }
    }

    /** Enumerate the devices; quit when there are none, otherwise open the first one. */
    method CheckDevices(devices: seq<DeviceName>)
      requires Valid() && state == Uninitialised
      modifies this
      ensures Valid() && published == old(published) && graphFile == old(graphFile)
      ensures inferences == old(inferences)
      ensures devices == [] ==> state == Quit && calls == old(calls) + [Enumerate(devices)]
      ensures devices != [] ==>
        state == Opened && calls == old(calls) + [Enumerate(devices), Open(devices[0])]
    {
      calls := calls + [Enumerate(devices)];
      if |devices| == 0 {
        state := Quit;
        return;
      }
      state := Enumerated(devices[0]);
      calls := calls + [Open(devices[0])];
      state := Opened;
    }

    /** Allocate the graph on the open device. */
    method AllocateGraph(graph: seq<bv8>)
      requires Valid() && state == Opened
      modifies this
      ensures Valid() && state == Allocated
      ensures calls == old(calls) + [Allocate(graph)]
      ensures published == old(published) && graphFile == old(graphFile)
      ensures inferences == old(inferences)
    {
      calls := calls + [Allocate(graph)];
      state := Allocated;
    }

    /** Keep the graph file's contents and allocate them. */
    method LoadRequirements(graph: seq<bv8>)
      requires Valid() && state == Opened
      modifies this
      ensures Valid() && state == Allocated && graphFile == graph
      ensures calls == old(calls) + [Allocate(graph)]
      ensures published == old(published) && inferences == old(inferences)
    {
      graphFile := graph;
      AllocateGraph(graphFile);
    }

    /** Run the allocated graph on one input; legal only while the graph is allocated. */
    method Infer(input: Input)
      requires Valid() && state == Allocated
      modifies this
      ensures inferences == old(inferences) + [input]
      ensures state == old(state) && calls == old(calls)
      ensures published == old(published) && graphFile == old(graphFile)
    {
      inferences := inferences + [input];
    }

    /** `graph.DeallocateGraph()` at shutdown. */
    method DeallocateGraph()
      requires Valid() && state == Allocated
      modifies this
      ensures Valid() && state == Released
      ensures calls == old(calls) + [Deallocate]
      ensures published == old(published) && graphFile == old(graphFile)
      ensures inferences == old(inferences)
    {
      calls := calls + [Deallocate];
      state := Released;
    }

    /** `movidius.CloseDevice()` at shutdown, after the graph is released. */
    method CloseDevice()
      requires Valid() && state == Released
      modifies this
      ensures Valid() && state == Closed
      ensures calls == old(calls) + [Close]
      ensures published == old(published) && graphFile == old(graphFile)
      ensures inferences == old(inferences)
    {
      calls := calls + [Close];
      state := Closed;
    }

    /** `jumpwayClient.publishToDeviceChannel` of one warning. */
    method Publish(e: Event)
      modifies this
      ensures published == old(published) + [e]
      ensures state == old(state) && calls == old(calls) && graphFile == old(graphFile)
      ensures inferences == old(inferences)
    {
      published := published + [e];
    }
  }
}
