/** What becomes of an encrypted container: its size, who reads what from it, and the tree that comes back. */
module Lifecycle {
  import opened Wrappers
  import opened Bytes
  import opened Records
  import opened Authenticity
  import opened Envelope
  import opened Recipients
  import opened Wrapping
  import opened Container
  import opened Sizing
  import Operations
  import Chains
  import opened Paths
  import opened Trees
  import FileSystem
  import opened Archives
  import opened Extraction
  import opened Creation
  import opened Containment
  import opened RoundTrip
  import opened Filtering

  /** 12 bytes of magic and length, the header, n plaintext bytes, 29 for each of ceil(n/R) records, 53 for the last. */
  lemma ContainerSize(p: Primitives, w: World, g: Origin, container: Bytes)
    requires p.Lawful() && Sound(p, w, g, container)
    ensures |container| == 12 + |p.text.marshal(ReadHeader(p.text, container).header)|
                           + |g.plain| + 29 * CeilDiv(|g.plain|, g.frozen.recordSize) + 53
  {
    hide ReadHeader, Channel.Payload, Channel.Entries, Honest, HeaderAccepted, CeilDiv, Genuine;
    HeaderCanonical(p.text, container);
    PayloadSize(OriginChannel(p, g), g.plain);
  }

  /** Whoever was asked for when encrypting reads the plaintext, the metadata and the codec back. */
  lemma EveryRequestedHolderDecrypts(p: Primitives, w: World, g: Origin, container: Bytes, a: Additions, o: Credentials,
                                     opener: Opener)
    requires p.Lawful() && Sound(p, w, g, container) && CounterFits(OriginChannel(p, g), g.plain)
    requires Operations.ServesAll(p, w, g, ReadHeader(p.text, container).header.recipients, a)
    requires Requested(a, opener) && Holds(o, opener)
    ensures Decrypt(p, w, container, o) == Decrypted(g.frozen.codec, g.metadata, g.plain)
  {
    hide ReadHeader, Serves, Recorded, HeaderOf, Genuine, Decrypt, Channel.Payload;
    var stanzas := ReadHeader(p.text, container).header.recipients;
    assert Serves(p, w, g.id, g.contentKey, stanzas, opener);
    SoundDecrypts(p, w, g, container, o, opener);
  }

  /** The tar stream and its compression, by codec; what does not decode to the end is a broken archive. */
  datatype Streams = Streams(encode: (string, seq<TarEntry>) -> Bytes, decode: (string, Bytes) -> Archive) {
    ghost predicate Lawful() {
      forall codec, es :: decode(codec, encode(codec, es)) == Archive(es, false)
    }
  }

  /** Decrypt, decode, extract everything. */
  function Unpacked(p: Primitives, streams: Streams, l: Chains.Link, o: Credentials, limits: Limits, fs: FileSystem.Fs,
                    root: Path): Option<Extracted> {
    match Decrypt(p, l.world, l.container, o)
    case Decrypted(codec, _, out) => Some(ExtractResult(limits, fs, root, streams.decode(codec, out), EverySelector()))
    case Rejected(_) => None
  }

  /** At link `i` the table has a stanza for the opener, and no later request drops it. */
  ghost predicate StillServed(p: Primitives, g: Origin, links: seq<Chains.Link>, events: seq<Chains.Event>, i: nat,
                              opener: Opener) {
    i < |links| && exists s :: Chains.There(p, g, links[i], s, opener) && Chains.KeptFrom(events, i, s)
  }

  /**
    Create, encrypt, rekey any number of times among anything else, decrypt, extract: any holder still
    served gets back exactly the archived files, links and directories, as far as the readers accept them.
   */
  lemma SelectionComesBack(p: Primitives, streams: Streams, g: Origin, links: seq<Chains.Link>,
                           events: seq<Chains.Event>,
                           i: nat, opener: Opener, o: Credentials,
                           choose: Chooser, t: Tree, w: seq<Visit>, limits: Limits, fs: FileSystem.Fs, root: Path)
    requires p.Lawful() && streams.Lawful()
    requires t.Dir? && Named(t) && CompleteIn(choose, [], t, t.entries.Keys, w)
             && !FailureIn(choose, [], t, t.entries.Keys)
    requires g.plain == streams.encode(g.frozen.codec, Written(choose, w))
    requires Chains.IsChain(p, links, events) && Sound(p, links[0].world, g, links[0].container)
    requires Chains.Readable(p, links[|events|]) && StillServed(p, g, links, events, i, opener) && Holds(o, opener)
    requires OriginChannel(p, g).recordSize > 0 ==> CounterFits(OriginChannel(p, g), g.plain)
    requires FileSystem.Rooted(fs) && AllNormal(root) && PrepareDestination(fs, root).ok && WithDefaults(limits).Some?
    ensures var r := Unpacked(p, streams, links[|events|], o, limits, fs, root);
            var es, l, base := Written(choose, w), WithDefaults(limits).value, PrepareDestination(fs, root).fs;
            && r.Some?
            && (r.value.summary.Some? <==>
                es != [] && |es| <= l.entries && TotalSize(es) <= l.total && AllReadable(choose, l, w))
            && (r.value.summary.Some? ==>
                exists at :: Ready(base, root, at) && Untouched(base, at) && Restored(choose, w, base, at, r.value.fs))
  {
    hide Sound, Decrypt, Chains.IsChain, Chains.There, Chains.KeptFrom, Chains.Readable, Holds, CounterFits, CompleteIn,
         FailureIn, Named, Written, AllReadable, TotalSize, PrepareDestination, WithDefaults, FileSystem.Rooted,
         ExtractResult, Ready, Untouched, Restored;
    var s :| Chains.There(p, g, links[i], s, opener) && Chains.KeptFrom(events, i, s);
    ChainLength(p, links, events);
    Chains.ChainDecrypts(p, g, links, events, i, s, o, opener);
    ArchiveRoundTrip(choose, t, w, limits, fs, root);
  }

  lemma ChainLength(p: Primitives, links: seq<Chains.Link>, events: seq<Chains.Event>)
    requires Chains.IsChain(p, links, events)
    ensures |links| == |events| + 1
  {
    hide Chains.Happens;
  }

  /** Without a selection that is the tree itself, every node at its path and nothing else. */
  lemma TreeComesBack(p: Primitives, streams: Streams, g: Origin, links: seq<Chains.Link>, events: seq<Chains.Event>,
                      i: nat, opener: Opener, o: Credentials,
                      t: Tree, w: seq<Visit>, limits: Limits, fs: FileSystem.Fs, root: Path)
    requires p.Lawful() && streams.Lawful()
    requires t.Dir? && Named(t) && CompleteIn(EverythingChosen(), [], t, t.entries.Keys, w)
    requires !FailureIn(EverythingChosen(), [], t, t.entries.Keys)
    requires g.plain == streams.encode(g.frozen.codec, Written(EverythingChosen(), w))
    requires Chains.IsChain(p, links, events) && Sound(p, links[0].world, g, links[0].container)
    requires Chains.Readable(p, links[|events|]) && StillServed(p, g, links, events, i, opener) && Holds(o, opener)
    requires OriginChannel(p, g).recordSize > 0 ==> CounterFits(OriginChannel(p, g), g.plain)
    requires FileSystem.Rooted(fs) && AllNormal(root) && PrepareDestination(fs, root).ok && WithDefaults(limits).Some?
    ensures var r := Unpacked(p, streams, links[|events|], o, limits, fs, root);
            var es, l, base := Written(EverythingChosen(), w), WithDefaults(limits).value,
              PrepareDestination(fs, root).fs;
            && r.Some?
            && (r.value.summary.Some? <==>
                es != [] && |es| <= l.entries && TotalSize(es) <= l.total && AllReadable(EverythingChosen(), l, w))
            && (r.value.summary.Some? ==>
                  exists at :: Ready(base, root, at) && SameTree(t, r.value.fs, at))
  {
    hide Sound, Decrypt, Unpacked, Chains.IsChain, Chains.Readable, StillServed, Holds, CounterFits, CompleteIn,
         FailureIn, Named, Written, AllReadable, TotalSize, PrepareDestination, WithDefaults, FileSystem.Rooted,
         ExtractResult, Ready, Untouched, Restored, NodeFor;
    ChainLength(p, links, events);
    SelectionComesBack(p, streams, g, links, events, i, opener, o, EverythingChosen(), t, w, limits, fs, root);
    var r := Unpacked(p, streams, links[|events|], o, limits, fs, root).value;
    var base := PrepareDestination(fs, root).fs;
    if r.summary.Some? {
      var at :| Ready(base, root, at) && Restored(EverythingChosen(), w, base, at, r.fs);
      forall q: Path | q != []
        ensures at + q in r.fs <==> At(t, q).Node?
        ensures At(t, q).Node? && at + q in r.fs ==>
                  r.fs[at + q] == match At(t, q).node
                                  case File(mode, data) => FileSystem.FileNode(mode % 512, data)
                                  case Link(target) => FileSystem.LinkNode(target)
                                  case Dir(_, _) => FileSystem.DirNode(448)
      {
        WholeTreeComesBack(t, w, base, at, r.fs, q);
      }
    }
  }

  /** Each node of the tree stands at its path below `at`, directories being private, and nothing else does. */
  ghost predicate SameTree(t: Tree, fs: FileSystem.Fs, at: Path) {
    forall q: Path :: q != [] ==>
      && (at + q in fs <==> At(t, q).Node?)
      && (At(t, q).Node? && at + q in fs ==>
            fs[at + q] == match At(t, q).node
                          case File(mode, data) => FileSystem.FileNode(mode % 512, data)
                          case Link(target) => FileSystem.LinkNode(target)
                          case Dir(_, _) => FileSystem.DirNode(448))
  }
}
