/**
 * The service's registry of torrents and the loop that serves commands on
 * it: adding a torrent and acting on one change the registry; answering a
 * peer handshake and listing the torrents only read it.
 *
 * Adding a torrent and acting on one are done by helpers outside this
 * model, so they are parameters here.  Failed replies are only logged, so
 * every reply is recorded as handed over.
 */
module DownloadEvents {
  import opened Outcomes
  import opened RawInfo
  import ServiceInfo

  datatype TorrentDownloadStatus = Enabled | Disabled

  datatype TorrentDownloadHeader = TorrentDownloadHeader(file: string, state: TorrentDownloadStatus)

  /** The running download of one torrent: its info-hash and its normalised info. */
  datatype TorrentProcess = TorrentProcess(hashId: seq<Byte>, info: ServiceInfo.TorrentInfo)

  /** The latest storage counters of a torrent. */
  datatype TorrentStorageState = TorrentStorageState(bytesRead: Usize, bytesWrite: Usize)

  datatype TorrentDownload = TorrentDownload(
    id: Usize,
    name: string,
    header: TorrentDownloadHeader,
    process: TorrentProcess,
    storageState: TorrentStorageState)

  /** What the web front end is shown of a torrent. */
  datatype TorrentDownloadView = TorrentDownloadView(
    id: Usize,
    name: string,
    received: Usize,
    uploaded: Usize,
    length: Usize,
    active: bool)

  /** `From<&TorrentDownload> for TorrentDownloadView`. */
  function ViewOf(torrent: TorrentDownload): (view: TorrentDownloadView)
    ensures view.active <==> torrent.header.state == Enabled
    ensures view.received == torrent.storageState.bytesWrite && view.uploaded == torrent.storageState.bytesRead
    ensures view.id == torrent.id && view.name == torrent.name && view.length == torrent.process.info.length
  {
    var uploaded := torrent.storageState.bytesRead;
    var received := torrent.storageState.bytesWrite;
    TorrentDownloadView(torrent.id, torrent.name, received, uploaded, torrent.process.info.length,
                        torrent.header.state == Enabled)
  }

  /** The answer to `TorrentList`: one view per torrent, in registry order. */
  function ListViews(torrents: seq<TorrentDownload>): (views: seq<TorrentDownloadView>)
    ensures |views| == |torrents|
    ensures forall i :: 0 <= i < |torrents| ==> views[i] == ViewOf(torrents[i])
  {
    if torrents == [] then [] else [ViewOf(torrents[0])] + ListViews(torrents[1..])
  }

  /** The answer to `TorrentHandshake`: the process of the first torrent with the requested info-hash. */
  function FindProcess(torrents: seq<TorrentDownload>, hashId: seq<Byte>): (r: Option<TorrentProcess>)
    ensures r.None? <==> forall i :: 0 <= i < |torrents| ==> torrents[i].process.hashId != hashId
    ensures r.Some? ==> exists i :: 0 <= i < |torrents| && torrents[i].process == r.value
                                  && r.value.hashId == hashId
                                  && forall j :: 0 <= j < i ==> torrents[j].process.hashId != hashId
  {
    if torrents == [] then None
    else if torrents[0].process.hashId == hashId then Some(torrents[0].process)
    else
      FindProcess(torrents[1..], hashId)
  }

  datatype AddTorrentRequest = AddTorrentRequest(data: seq<Byte>, filename: string, state: TorrentDownloadStatus)

  /** The command an action request carries; its handling is outside this model. */
  datatype TorrentActionRequest = TorrentActionRequest(id: Usize, action: nat)

  datatype RsbtError = RsbtError(message: string)

  datatype RsbtCommand =
    | AddTorrent(request: AddTorrentRequest)
    | TorrentHandshake(infoHash: seq<Byte>)
    | TorrentList
    | TorrentAction(actionRequest: TorrentActionRequest)

  datatype Reply =
    | Added(added: Result<TorrentDownload, RsbtError>)
    | HandshakeProcess(process: Option<TorrentProcess>)
    | Listed(views: Result<seq<TorrentDownloadView>, RsbtError>)
    | Acted(acted: Result<(), RsbtError>)

  /** The loop's state: the torrents and the next id. */
  datatype Registry = Registry(torrents: seq<TorrentDownload>, id: Usize)

  /** `add_torrent`, given the request, the id counter and the torrents: the reply, the new counter and the new torrents. */
  type AddTorrentFn = (AddTorrentRequest, Usize, seq<TorrentDownload>) -> (Result<TorrentDownload, RsbtError>, Usize, seq<TorrentDownload>)

  /** `torrent_action`, given the request and the torrents: the reply and the new torrents. */
  type TorrentActionFn = (TorrentActionRequest, seq<TorrentDownload>) -> (Result<(), RsbtError>, seq<TorrentDownload>)

  /**
   * One turn of the loop: the registry afterwards and the reply sent.  Every
   * command is answered with a reply of its own kind; handshakes and listings
   * keep the registry, and an action keeps the id counter.
   */
  function Step(registry: Registry, event: RsbtCommand, addTorrent: AddTorrentFn, torrentAction: TorrentActionFn)
    : (out: (Registry, Reply))
    ensures event.AddTorrent? <==> out.1.Added?
    ensures event.TorrentHandshake? <==> out.1.HandshakeProcess?
    ensures event.TorrentList? <==> out.1.Listed?
    ensures event.TorrentAction? <==> out.1.Acted?
    ensures ReadOnly(event) ==> out.0 == registry
    ensures event.TorrentAction? ==> out.0.id == registry.id
  {
    match event
    case AddTorrent(request) =>
      var (torrent, id, torrents) := addTorrent(request, registry.id, registry.torrents);
      (Registry(torrents, id), Added(torrent))
    case TorrentHandshake(infoHash) =>
      (registry, HandshakeProcess(FindProcess(registry.torrents, infoHash)))
    case TorrentList =>
      (registry, Listed(Ok(ListViews(registry.torrents))))
    case TorrentAction(request) =>
      var (response, torrents) := torrentAction(request, registry.torrents);
      (Registry(torrents, registry.id), Acted(response))
  }

  /** The registry after serving `events` in order, and the replies sent. */
  function Replay(registry: Registry, events: seq<RsbtCommand>, addTorrent: AddTorrentFn, torrentAction: TorrentActionFn)
    : (Registry, seq<Reply>)
  {
    if events == [] then (registry, [])
    else
      var (before, replies) := Replay(registry, events[..|events| - 1], addTorrent, torrentAction);
      var (after, reply) := Step(before, events[|events| - 1], addTorrent, torrentAction);
      (after, replies + [reply])
  }

  predicate ReadOnly(event: RsbtCommand)
  {
    event.TorrentHandshake? || event.TorrentList?
  }

  /**
   * `TorrentHandshake` answers with the first matching process and `TorrentList`
   * with the views of all torrents; neither changes the torrents or the id.
   */
  lemma ReadOnlyStep(registry: Registry, event: RsbtCommand, addTorrent: AddTorrentFn, torrentAction: TorrentActionFn)
    requires ReadOnly(event)
    ensures Step(registry, event, addTorrent, torrentAction).0 == registry
    ensures event.TorrentHandshake? ==>
              Step(registry, event, addTorrent, torrentAction).1 == HandshakeProcess(FindProcess(registry.torrents, event.infoHash))
    ensures event.TorrentList? ==>
              Step(registry, event, addTorrent, torrentAction).1 == Listed(Ok(ListViews(registry.torrents)))
  {
  }

  /** A run of handshakes and listings leaves the registry as it was, with one reply per command. */
  lemma {:induction false} ReadOnlyRun(registry: Registry, events: seq<RsbtCommand>, addTorrent: AddTorrentFn, torrentAction: TorrentActionFn)
    requires forall k :: 0 <= k < |events| ==> ReadOnly(events[k])
    ensures Replay(registry, events, addTorrent, torrentAction).0 == registry
    ensures |Replay(registry, events, addTorrent, torrentAction).1| == |events|
  {
    if events != [] {
      ReadOnlyRun(registry, events[..|events| - 1], addTorrent, torrentAction);
    }
  }

  /** The async loop that owns the registry and serves commands from its channel. */
  class DownloadEventsLoop {
    var torrents: seq<TorrentDownload>
    var id: Usize
    var replies: seq<Reply>

    /** The loop starts with no torrents and id 0. */
    constructor()
      ensures torrents == [] && id == 0 && replies == []
    {
      torrents := [];
      id := 0;
      replies := [];
    }

    /** Serve one command. */
    method Handle(event: RsbtCommand, addTorrent: AddTorrentFn, torrentAction: TorrentActionFn)
      modifies this
      ensures var (after, reply) := Step(Registry(old(torrents), old(id)), event, addTorrent, torrentAction);
              Registry(torrents, id) == after && replies == old(replies) + [reply]
    {
      match event {
        case AddTorrent(request) =>
          var (torrent, newId, newTorrents) := addTorrent(request, id, torrents);
          id := newId;
          torrents := newTorrents;
          replies := replies + [Added(torrent)];
        case TorrentHandshake(infoHash) =>
          var hashId := infoHash;
          replies := replies + [HandshakeProcess(FindProcess(torrents, hashId))];
        case TorrentList =>
          var torrentsView := ListViews(torrents);
          replies := replies + [Listed(Ok(torrentsView))];
        case TorrentAction(request) =>
          var (response, newTorrents) := torrentAction(request, torrents);
          torrents := newTorrents;
          replies := replies + [Acted(response)];
      }
    }

    /** `download_events_loop`: serve the commands in the order they arrive, until the channel closes. */
    method Run(events: seq<RsbtCommand>, addTorrent: AddTorrentFn, torrentAction: TorrentActionFn)
      modifies this
      ensures var (after, sent) := Replay(Registry(old(torrents), old(id)), events, addTorrent, torrentAction);
              Registry(torrents, id) == after && replies == old(replies) + sent
    {
      for k := 0 to |events|
        invariant var (after, sent) := Replay(Registry(old(torrents), old(id)), events[..k], addTorrent, torrentAction);
                  Registry(torrents, id) == after && replies == old(replies) + sent
      {
        assert events[..k + 1][..k] == events[..k];
        Handle(events[k], addTorrent, torrentAction);
      }
      assert events[..|events|] == events;
    }
  }
}
