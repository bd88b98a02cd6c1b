/** The frames a process holds and the bytes it stores, over any run: rendering, storing, loading,
    binding to other inputs and publishing (pkg/kustomize/flux.go, 354-378 and 436-445;
    pkg/kustomize/render_cache.go, 430-476; pkg/helm/template.go, 545-556 and 659-672). */
module FrameRuns {
  import opened Accepted
  import opened RenderFrame
  import opened Text

  datatype Cache = Cache(stored: set<Bytes>, held: set<Held>)

  /** The raw fingerprint is still to be computed, or is that of the header as it will be written. */
  ghost predicate Matching(w: World, f: Held) {
    Consistent(w, f) && (f.raw == "" || f.raw == RawOf(w, f))
  }

  /** Bytes this code writes: a frame, and perhaps an inventory behind it. */
  ghost predicate Written(w: World, data: Bytes) {
    exists header, output, tail ::
      |w.headers.encode(Sealed(w, header, output))| <= LIMIT && data == Framed(w, header, output) + tail
  }

  /** A frame read back under the binding of the request at hand; under another one it starts over. */
  function Loaded(w: World, data: Bytes, bound: string): Outcome<Held> {
    match DecodeFrame(w, data)
    case Failed => Failed
    case Ok(f) =>
      Ok(if f.header.binding != bound then Held(f.header.(binding := bound), bound, f.output, "", None)
         else Held(f.header, bound, f.output, f.raw, None))
  }

  /** The inputs a render depends on turned out otherwise. */
  function Rebound(f: Held, bound: string): Held {
    if bound == f.bindingPrint then f
    else f.(bindingPrint := bound, header := f.header.(binding := ""), raw := "", encoded := None)
  }

  datatype Event =
    | Rendered(header: Header, bound: string, output: Bytes)
    | Produced(header: Header, output: Bytes)
    | Read(data: Bytes, bound: string)
    | Bind(f: Held, bound: string)
    | Published(f: Held, tail: Bytes)

  ghost predicate Enabled(w: World, c: Cache, e: Event) {
    match e
    case Rendered(header, bound, _) => header.binding == "" && bound != ""
    case Produced(header, output) => |w.headers.encode(Sealed(w, header, output))| <= LIMIT
    case Read(data, bound) => data in c.stored && bound != "" && Loaded(w, data, bound).Ok?
    case Bind(f, bound) => f in c.held && bound != ""
    case Published(f, _) => f in c.held && |w.headers.encode(Sealed(w, Bound(f), f.output))| <= LIMIT
  }

  ghost function Apply(w: World, c: Cache, e: Event): Cache
    requires Enabled(w, c, e)
  {
    match e
    case Rendered(header, bound, output) => c.(held := c.held + {Held(header, bound, output, "", None)})
    case Produced(header, output) => c.(stored := c.stored + {Framed(w, header, output)})
    case Read(data, bound) => c.(held := c.held + {Loaded(w, data, bound).value})
    case Bind(f, bound) => c.(held := c.held + {Rebound(f, bound)})
    case Published(f, tail) => c.(stored := c.stored + {Framed(w, Bound(f), f.output) + tail})
  }

  ghost predicate Run(w: World, states: seq<Cache>, events: seq<Event>) {
    && |states| == |events| + 1 && states[0] == Cache({}, {})
    && forall k | 0 <= k < |events| :: Enabled(w, states[k], events[k]) && states[k + 1] == Apply(w, states[k], events[k])
  }

  ghost predicate Inv(w: World, c: Cache) {
    && (forall f | f in c.held :: Matching(w, f))
    && (forall data | data in c.stored :: Written(w, data))
  }

  lemma SealedAgain(w: World, header: Header, output: Bytes)
    ensures Sealed(w, Sealed(w, header, output), output) == Sealed(w, header, output)
  {
  }

  /** What is read back from bytes this code wrote is as good as fresh. */
  lemma LoadedMatches(w: World, data: Bytes, bound: string)
    requires Faithful(w) && Written(w, data) && bound != "" && Loaded(w, data, bound).Ok?
    ensures Matching(w, Loaded(w, data, bound).value)
  {
    hide DecodeFrame, Framed, Domain, PutUint32;
    var header, output, tail :|
      |w.headers.encode(Sealed(w, header, output))| <= LIMIT && data == Framed(w, header, output) + tail;
    var head := w.headers.encode(Sealed(w, header, output));
    FramedParts(w, header, output);
    assert Assembled(w, head, output, []) + tail == Assembled(w, head, output, tail);
    DecodeAssembled(w, head, Sealed(w, header, output), output, tail);
    SealedAgain(w, header, output);
  }

  lemma StepKeepsMatching(w: World, c: Cache, e: Event)
    requires Faithful(w) && Inv(w, c) && Enabled(w, c, e)
    ensures Inv(w, Apply(w, c, e))
  {
    hide Framed, Loaded, RawOf;
    match e
    case Rendered(_, _, _) =>
    case Produced(header, output) => assert Framed(w, header, output) == Framed(w, header, output) + [];
    case Read(data, bound) => LoadedMatches(w, data, bound);
    case Bind(f, bound) =>
    case Published(f, tail) =>
  }

  /** In every run, each frame in hand has no raw fingerprint yet or that of its own header. */
  lemma {:induction false} RunKeepsMatching(w: World, states: seq<Cache>, events: seq<Event>, k: nat)
    requires Faithful(w) && Run(w, states, events) && k < |states|
    ensures Inv(w, states[k])
  {
    hide Apply, Enabled;
    if k > 0 {
      var last := k - 1;
      RunKeepsMatching(w, states, events, last);
      StepKeepsMatching(w, states[last], events[last]);
      assert states[last + 1] == states[k];
    }
  }

  /** Whatever happened to a frame before, publishing it and reading it back keeps the whole inventory. */
  method PublishInRun(w: World, ghost states: seq<Cache>, ghost events: seq<Event>, f: Held, owner: Id, final: string,
                      records: Listing)
    returns (r: Outcome<Bytes>, ghost accepted: Inventory)
    requires Faithful(w) && Run(w, states, events) && f in states[|events|].held
    requires (w.dialect.Kustomize? ==> final != "") && forall a :: w.inventories.encode(a) != []
    ensures r.Ok? ==>
              && ItemsOf(records, accepted.records)
              && accepted.complete && accepted.owner == owner && accepted.final == final
              && DecodeFrame(w, r.value) == Ok(Frame(Sealed(w, Bound(f), f.output), f.output, RawOf(w, f), Some(accepted)))
    ensures r.Failed? && !Repeats(records) ==>
              || |w.headers.encode(Sealed(w, Bound(f), f.output))| > LIMIT
              || |w.inventories.encode(accepted)| > LIMIT
  {
    hide DecodeFrame, Framed, Apply, Enabled, RawOf, ItemsOf;
    RunKeepsMatching(w, states, events, |events|);
    assert Matching(w, f);
    r, accepted := Publish(w, f, owner, final, records);
  }

  /** Of any well-formed frame, also one this code did not write, read under its own binding: it is
      as good as fresh exactly when its header is encoded the way this code does it. */
  lemma LoadedMatchesIff(w: World, head: Bytes, header: Header, output: Bytes, tail: Bytes)
    requires Faithful(w) && |head| <= LIMIT && w.headers.decode(head) == Some(header)
    requires header.size == |output| && header.output == w.fingerprint(output) && header.binding != ""
    requires forall a, b :: w.fingerprint(a) == w.fingerprint(b) ==> a == b
    ensures var data := Assembled(w, head, output, tail);
            Loaded(w, data, header.binding).Ok? &&
            (Matching(w, Loaded(w, data, header.binding).value) <==> head == w.headers.encode(header))
  {
    hide DecodeFrame, Assembled, Framed;
    DecodeAssembled(w, head, header, output, tail);
    assert Sealed(w, header, output) == header;
  }
}
