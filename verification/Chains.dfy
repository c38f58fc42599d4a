/** Chains of rekeys of one container, among whatever else happens to the world meanwhile. */
module Chains {
  import opened Bytes
  import opened Records
  import opened Authenticity
  import opened Envelope
  import opened Recipients
  import opened Wrapping
  import opened Container
  import opened Rekeying
  import opened Operations

  /** A container and the world at the time. */
  datatype Link = Link(world: World, container: Bytes)

  /** This container rekeyed, a rekey of any container that failed, or another one encrypted or rekeyed beside it. */
  datatype Event =
    | Rekeyed(request: Request, added: seq<Stanza>)
    | RekeyFailed(of: Bytes, failed: Request)
    | EncryptedOther(draw: Draw)
    | RekeyedOther(before: Bytes, otherRequest: Request, otherAdded: seq<Stanza>, after: Bytes)

  ghost predicate Happens(p: Primitives, a: Link, ev: Event, b: Link) {
    match ev
    case Rekeyed(q, added) =>
      Fresh(a.world, q.entropy) && RekeyStep(p, a.world, a.container, q, added, b.world, b.container)
    case RekeyFailed(of, q) =>
      b.container == a.container && Fresh(a.world, q.entropy) && Attempted(p, a.world, of, q, b.world)
    case EncryptedOther(d) =>
      && b.container == a.container && |d.payloadId| == 32 && |d.contentKey| == 32
      && DrawFresh(a.world, d) && GrowsFor(a.world, b.world, d.payloadId, d.contentKey, d.entropy)
    case RekeyedOther(before, q, added, after) =>
      b.container == a.container && Fresh(a.world, q.entropy) && RekeyStep(p, a.world, before, q, added, b.world, after)
  }

  ghost predicate IsChain(p: Primitives, links: seq<Link>, events: seq<Event>) {
    |links| == |events| + 1 && forall i :: 0 <= i < |events| ==> Happens(p, links[i], events[i], links[i + 1])
  }

  predicate Readable(p: Primitives, l: Link) {
    ReadHeader(p.text, l.container).HeaderRead?
  }

  function Table(p: Primitives, l: Link): seq<Stanza>
    requires Readable(p, l)
  {
    ReadHeader(p.text, l.container).header.recipients
  }

  /** Something was wrapped for this payload id. */
  ghost predicate Known(w: World, id: Bytes) {
    || (exists e :: e in w.seals && WrapAad(id, e.aad))
    || exists b :: b in w.boxes && |b.plain| == 64 && b.plain[..32] == id
  }

  lemma SoundKnown(p: Primitives, w: World, g: Origin, container: Bytes)
    requires p.Lawful() && Sound(p, w, g, container)
    ensures Known(w, g.id)
  {
    hide ReadHeader, Recorded, Honest, Channel.Payload, HeaderOf, TableAccepted, RecipientAad;
    HeaderCanonical(p.text, container);
    var h := ReadHeader(p.text, container).header;
    RecordedFacts(p, w, g, h);
    HonestSizes(w, g.id, g.contentKey);
    var s := h.recipients[0];
    assert Genuine(p, w, g.id, g.contentKey, s);
    GenuineKnown(p, w, g.id, g.contentKey, s);
  }

  lemma HonestSizes(w: World, id: Bytes, k: Bytes)
    requires Honest(w, id, k)
    ensures |id| == 32 && |k| == 32
  {
  }

  lemma GenuineKnown(p: Primitives, w: World, id: Bytes, k: Bytes, s: Stanza)
    requires |id| == 32 && |k| == 32 && Genuine(p, w, id, k, s)
    ensures Known(w, id)
  {
    hide RecipientAad;
    var opener :| WrappedFor(p, w, id, k, s, opener);
    if opener.ByIdentity? {
      var b :| b in w.boxes && b.recipient == opener.key && b.plain == id + k;
      assert (id + k)[..32] == id;
    }
  }

  /** Fresh draws are drawn for another payload id. */
  lemma FreshIsOther(w: World, d: Draw, id: Bytes)
    requires DrawFresh(w, d) && Known(w, id)
    ensures d.payloadId != id
  {
    hide RecipientAad;
  }

  lemma KnownGrows(w: World, w': World, id: Bytes)
    requires Known(w, id) && w.seals <= w'.seals && w.boxes <= w'.boxes
    ensures Known(w', id)
  {
    hide WrapAad;
    if e :| e in w.seals && WrapAad(id, e.aad) {
      var i :| 0 <= i < |w.seals| && w.seals[i] == e;
      assert w'.seals[i] == e;
    } else {
      var b :| b in w.boxes && |b.plain| == 64 && b.plain[..32] == id;
      var i :| 0 <= i < |w.boxes| && w.boxes[i] == b;
      assert w'.boxes[i] == b;
    }
  }

  /** What every event keeps: the origin stays recorded, and the container is sound as long as it can be read at all. */
  ghost predicate Steady(p: Primitives, g: Origin, l: Link) {
    Recorded(p, l.world, g) && Known(l.world, g.id) && (Readable(p, l) ==> Sound(p, l.world, g, l.container))
  }

  lemma SoundSteady(p: Primitives, g: Origin, l: Link)
    requires p.Lawful() && Sound(p, l.world, g, l.container)
    ensures Steady(p, g, l) && Readable(p, l)
  {
    hide Recorded, Genuine, HeaderOf, ReadHeader, Known, Channel.Payload;
    SoundKnown(p, l.world, g, l.container);
  }

  lemma EventGrows(p: Primitives, a: Link, ev: Event, b: Link)
    requires Happens(p, a, ev, b)
    ensures a.world.seals <= b.world.seals && a.world.boxes <= b.world.boxes
    ensures Readable(p, b) && !ev.Rekeyed? ==> Readable(p, a)
    ensures ev.Rekeyed? ==> Readable(p, a)
  {
    hide ReadHeader, Unwrap, Adds, DistinctIds, DrawFresh;
  }

  lemma OthersKeepSound(p: Primitives, w: World, w': World, g: Origin, container: Bytes)
    requires Sound(p, w, g, container) && Recorded(p, w', g) && w.seals <= w'.seals && w.boxes <= w'.boxes
    ensures Sound(p, w', g, container)
  {
    hide ReadHeader, Recorded, Genuine, HeaderOf, Channel.Payload;
    var h := ReadHeader(p.text, container).header;
    forall s | s in h.recipients ensures Genuine(p, w', g.id, g.contentKey, s) {
      GrowsKeepsGenuine(p, w, w', g.id, g.contentKey, s);
    }
  }

  lemma EventRecorded(p: Primitives, g: Origin, a: Link, ev: Event, b: Link)
    requires Recorded(p, a.world, g) && Known(a.world, g.id) && Happens(p, a, ev, b)
    ensures Recorded(p, b.world, g)
  {
    hide Recorded, Known, RekeyStep, GrowsFor, Fresh, Attempted;
    match ev {
      case Rekeyed(q, added) =>
        StepAttempted(p, a.world, a.container, q, added, b.world, b.container);
        AnyRekeyKeepsRecorded(p, a.world, g, a.container, q, b.world);
      case RekeyFailed(of, q) => AnyRekeyKeepsRecorded(p, a.world, g, of, q, b.world);
      case EncryptedOther(d) =>
        FreshIsOther(a.world, d, g.id);
        OthersKeepRecorded(p, a.world, b.world, g, d.payloadId, d.contentKey, d.entropy);
      case RekeyedOther(before, q, added, after) =>
        StepAttempted(p, a.world, before, q, added, b.world, after);
        AnyRekeyKeepsRecorded(p, a.world, g, before, q, b.world);
    }
  }

  lemma EventSteady(p: Primitives, g: Origin, a: Link, ev: Event, b: Link)
    requires p.Lawful() && Steady(p, g, a) && Happens(p, a, ev, b)
    ensures Steady(p, g, b)
  {
    hide Recorded, Known, RekeyStep, GrowsFor, DrawFresh, Fresh, Sound, Readable;
    EventGrows(p, a, ev, b);
    EventRecorded(p, g, a, ev, b);
    KnownGrows(a.world, b.world, g.id);
    if Readable(p, b) {
      if ev.Rekeyed? {
        RekeyReadable(p, g, a, ev, b);
      } else {
        OthersKeepSound(p, a.world, b.world, g, a.container);
      }
    }
  }

  lemma RekeyReadable(p: Primitives, g: Origin, a: Link, ev: Event, b: Link)
    requires p.Lawful() && ev.Rekeyed? && Happens(p, a, ev, b) && Sound(p, a.world, g, a.container) && Readable(p, b)
    ensures Sound(p, b.world, g, b.container)
  {
    hide RekeyStep, Sound, ReadHeader, Fresh;
    StepReads(p, a.world, a.container, ev.request, ev.added, b.world, b.container);
    RekeyedReads(p, a.world, a.container, ev.request, ev.added, b.world, b.container);
    RekeyKeepsSound(p, a.world, g, a.container, ev.request, ev.added, b.world, b.container);
  }

  lemma {:induction false} ChainSteady(p: Primitives, g: Origin, links: seq<Link>, events: seq<Event>, i: nat)
    requires p.Lawful() && IsChain(p, links, events) && Sound(p, links[0].world, g, links[0].container) && i < |links|
    ensures Steady(p, g, links[i])
    decreases i
  {
    hide Happens, Sound;
    if i == 0 {
      SoundSteady(p, g, links[0]);
    } else {
      hide Steady;
      ChainSteady(p, g, links, events, i - 1);
      assert Happens(p, links[i - 1], events[i - 1], links[i - 1 + 1]);
      EventSteady(p, g, links[i - 1], events[i - 1], links[i]);
    }
  }

  /** A container that can be read was readable all along. */
  lemma {:induction false} ReadableBefore(p: Primitives, links: seq<Link>, events: seq<Event>, i: nat, j: nat)
    requires IsChain(p, links, events) && i <= j < |links| && Readable(p, links[j])
    ensures Readable(p, links[i])
    decreases j
  {
    hide Happens, Readable;
    if i < j {
      assert Happens(p, links[j - 1], events[j - 1], links[j - 1 + 1]);
      EventGrows(p, links[j - 1], events[j - 1], links[j]);
      ReadableBefore(p, links, events, i, j - 1);
    }
  }

  /**
    After any number of Rekey calls on a container, with any requests, and whatever else was encrypted
    or rekeyed meanwhile: if the result can be read at all it is a sound container of its origin.
   */
  lemma ChainKeepsSound(p: Primitives, g: Origin, links: seq<Link>, events: seq<Event>)
    requires p.Lawful() && IsChain(p, links, events) && Sound(p, links[0].world, g, links[0].container)
    requires Readable(p, links[|events|])
    ensures Sound(p, links[|events|].world, g, links[|events|].container)
  {
    hide Happens, Sound, Recorded, Known, Readable;
    ChainSteady(p, g, links, events, |events|);
  }

  /** Every rekey of this container from event `i` on keeps the stanza. */
  predicate KeptFrom(events: seq<Event>, i: nat, s: Stanza) {
    forall j :: i <= j < |events| && events[j].Rekeyed? ==> Keeps(events[j].request, s)
  }

  /** The stanza is in the table, for this opener. */
  ghost predicate There(p: Primitives, g: Origin, l: Link, s: Stanza, opener: Opener) {
    Readable(p, l) && s in Table(p, l) && WrappedFor(p, l.world, g.id, g.contentKey, s, opener)
  }

  lemma EventKeepsStanza(p: Primitives, g: Origin, a: Link, ev: Event, b: Link, s: Stanza, opener: Opener)
    requires p.Lawful() && Happens(p, a, ev, b) && There(p, g, a, s, opener) && Readable(p, b)
    requires ev.Rekeyed? ==> Keeps(ev.request, s)
    ensures There(p, g, b, s, opener)
  {
    hide RekeyStep, GrowsFor, DrawFresh, Fresh, WrappedFor, ReadHeader;
    EventGrows(p, a, ev, b);
    if ev.Rekeyed? {
      KeptStays(p, a.world, g, a.container, ev.request, ev.added, b.world, b.container, s, opener);
    } else {
      GrowsKeepsOpener(p, a.world, b.world, g.id, g.contentKey, s, opener);
    }
  }

  lemma {:induction false} StanzaStays(p: Primitives, g: Origin, links: seq<Link>, events: seq<Event>, i: nat, j: nat,
                                       s: Stanza, opener: Opener)
    requires p.Lawful() && IsChain(p, links, events) && i <= j < |links|
    requires There(p, g, links[i], s, opener) && KeptFrom(events, i, s) && Readable(p, links[j])
    ensures There(p, g, links[j], s, opener)
    decreases j
  {
    hide Happens, There, Readable;
    if i < j {
      ReadableBefore(p, links, events, j - 1, j);
      StanzaStays(p, g, links, events, i, j - 1, s, opener);
      assert Happens(p, links[j - 1], events[j - 1], links[j - 1 + 1]);
      EventKeepsStanza(p, g, links[j - 1], events[j - 1], links[j], s, opener);
    }
  }

  /**
    Whoever a stanza of some moment serves, if every later request keeps it, reads the original
    from the last container.
   */
  lemma ChainDecrypts(p: Primitives, g: Origin, links: seq<Link>, events: seq<Event>, i: nat, s: Stanza, o: Credentials,
                      opener: Opener)
    requires p.Lawful() && IsChain(p, links, events) && Sound(p, links[0].world, g, links[0].container)
    requires Readable(p, links[|events|])
    requires i < |links| && There(p, g, links[i], s, opener) && KeptFrom(events, i, s) && Holds(o, opener)
    ensures OriginChannel(p, g).recordSize > 0
    ensures var last := links[|events|];
            CounterFits(OriginChannel(p, g), g.plain) ==>
              Decrypt(p, last.world, last.container, o) == Decrypted(g.frozen.codec, g.metadata, g.plain)
  {
    hide Sound, Decrypt, ReadHeader, Happens, KeptFrom, WrappedFor, Holds, CounterFits;
    var last := links[|events|];
    ChainKeepsSound(p, g, links, events);
    SoundSized(p, last.world, g, last.container);
    StanzaStays(p, g, links, events, i, |events|, s, opener);
    if CounterFits(OriginChannel(p, g), g.plain) {
      SoundDecrypts(p, last.world, g, last.container, o, opener);
    }
  }

  /** Whoever is asked for in step `i` gets a stanza then, and reads the original as long as that stanza is kept. */
  lemma AddedDecrypts(p: Primitives, g: Origin, links: seq<Link>, events: seq<Event>, i: nat, o: Credentials,
                      opener: Opener)
    returns (s: Stanza)
    requires p.Lawful() && IsChain(p, links, events) && Sound(p, links[0].world, g, links[0].container)
    requires Readable(p, links[|events|])
    requires i < |events| && events[i].Rekeyed? && Requested(events[i].request.additions, opener) && Holds(o, opener)
    ensures s in events[i].added && There(p, g, links[i + 1], s, opener)
    ensures OriginChannel(p, g).recordSize > 0
    ensures var last := links[|events|];
            KeptFrom(events, i + 1, s) && CounterFits(OriginChannel(p, g), g.plain) ==>
              Decrypt(p, last.world, last.container, o) == Decrypted(g.frozen.codec, g.metadata, g.plain)
  {
    hide Sound, Decrypt, ReadHeader, KeptFrom, WrappedFor, Holds, RekeyStep, Requested, Fresh, CounterFits;
    var a, b, ev := links[i], links[i + 1], events[i];
    ReadableBefore(p, links, events, i + 1, |events|);
    ReadableBefore(p, links, events, i, |events|);
    ChainSteady(p, g, links, events, i);
    ChainKeepsSound(p, g, links, events);
    SoundSized(p, links[|events|].world, g, links[|events|].container);
    assert Happens(p, a, ev, b);
    AddedServes(p, a.world, g, a.container, ev.request, ev.added, b.world, b.container, opener);
    s :| s in ev.added && WrappedFor(p, b.world, g.id, g.contentKey, s, opener);
    if KeptFrom(events, i + 1, s) {
      ChainDecrypts(p, g, links, events, i + 1, s, o, opener);
    }
  }

  /** The application's requests never make the container unreadable, so its chains need no such condition. */
  lemma {:induction false} ApplicationChainReads(p: Primitives, links: seq<Link>, events: seq<Event>, i: nat)
    requires p.Lawful() && IsChain(p, links, events) && Readable(p, links[0]) && i < |links|
    requires forall j :: 0 <= j < |events| && events[j].Rekeyed? ==> ApplicationRequest(events[j].request)
    ensures Readable(p, links[i])
    decreases i
  {
    hide RekeyStep, DrawFresh, GrowsFor, ReadHeader;
    if i > 0 {
      ApplicationChainReads(p, links, events, i - 1);
      var a, b, ev := links[i - 1], links[i], events[i - 1];
      assert Happens(p, links[i - 1], events[i - 1], links[i - 1 + 1]);
      if ev.Rekeyed? {
        ApplicationNeverDoubles(ev.request, ReadHeader(p.text, a.container).header);
        RekeyedReads(p, a.world, a.container, ev.request, ev.added, b.world, b.container);
      }
    }
  }
}
