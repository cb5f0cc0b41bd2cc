/**
 * What happens when a peer has delivered the piece it was fetching: the
 * peer's download slot is cleared, the piece is saved, every other connected
 * peer that lacks it is told `Have`, those fetching the same piece are also
 * told `Cancel`, and a new download is chosen.
 *
 * Sends, the save and the peer selection are effects recorded in one trace,
 * in the order they happen; their outcomes are parameters.  The order in which the peer map is walked
 * is a parameter too, since a hash map fixes none.
 */
module PeerPieceDownloaded {
  import opened Outcomes
  import opened RawInfo
  import opened Messages
  import opened SeqFacts

  type Uuid = nat

  /** A peer's connection state; only a connected peer has a bitfield and a download slot. */
  datatype TorrentPeerState =
    | Connecting
    | Connected(pieces: seq<Byte>, downloadingPiece: Option<Usize>, downloadingSince: Option<nat>)

  datatype PeerMessage = Have(index: Usize) | Cancel

  /** Something the operation does outside the peer map. */
  datatype Effect =
    | Send(to: Uuid, message: PeerMessage)          // handed to a peer's sender; a failed send is only logged
    | Store(index: Usize, piece: seq<Byte>)         // `storage.save`
    | Select(downloadable: seq<nat>, peerId: Uuid)  // the peer selection, given the originating peer's pieces

  datatype RustorrentError = SaveFailed | SelectFailed

  /** `order` walks the peer map: every key exactly once. */
  predicate Walks(order: seq<Uuid>, states: map<Uuid, TorrentPeerState>)
  {
    && (forall k :: 0 <= k < |order| ==> order[k] in states)
    && (forall id :: id in states ==> id in order)
    && (forall j, k :: 0 <= j < k < |order| ==> order[j] != order[k])
  }

  /** The messages for one other peer: `Have` if it is connected and lacks the piece, then `Cancel` if it is fetching it. */
  function Notify(id: Uuid, state: TorrentPeerState, index: Usize): (sent: seq<Effect>)
  {
    if state.Connected? && BitByIndex(index, state.pieces).None? then
      [Send(id, Have(index))] + (if state.downloadingPiece == Some(index) then [Send(id, Cancel)] else [])
    else []
  }

  /** The messages of the notification loop over the peers in `order`, skipping the originating peer. */
  function Notifications(states: map<Uuid, TorrentPeerState>, order: seq<Uuid>, peerId: Uuid, index: Usize): (sent: seq<Effect>)
    requires forall k :: 0 <= k < |order| ==> order[k] in states
    ensures forall s :: s in sent ==> s.Send? && s.to != peerId && s.to in order
  {
    if order == [] then []
    else
      var id := order[|order| - 1];
      Notifications(states, order[..|order| - 1], peerId, index)
        + (if id == peerId then [] else Notify(id, states[id], index))
  }

  /** The list the originating peer's bitfield yields, byte by byte, through `match_pieces`. */
  function Downloadable(matchPieces: (seq<nat>, seq<Byte>, nat, Byte) -> seq<nat>, downloaded: seq<Byte>, pieces: seq<Byte>): seq<nat>
  {
    if pieces == [] then []
    else
      var n := |pieces| - 1;
      matchPieces(Downloadable(matchPieces, downloaded, pieces[..n]), downloaded, n, pieces[n])
  }

  /** The peer map with `peerId`'s download slot emptied. */
  function Cleared(states: map<Uuid, TorrentPeerState>, peerId: Uuid): map<Uuid, TorrentPeerState>
    requires peerId in states && states[peerId].Connected?
  {
    states[peerId := states[peerId].(downloadingPiece := None, downloadingSince := None)]
  }

  /**
   * The result, the new peer map and the trace of `process_peer_piece_downloaded`,
   * `trace` holding what was done before.
   */
  function Process(
    states: map<Uuid, TorrentPeerState>, trace: seq<Effect>, order: seq<Uuid>, peerId: Uuid, piece: seq<Byte>,
    downloaded: seq<Byte>, matchPieces: (seq<nat>, seq<Byte>, nat, Byte) -> seq<nat>, saveOk: bool, selectOk: bool)
    : (out: (Result<(), RustorrentError>, map<Uuid, TorrentPeerState>, seq<Effect>))
    requires Walks(order, states)
    ensures out.1.Keys == states.Keys
    ensures trace <= out.2
    ensures out.0.Err? ==> |out.2| > |trace| && out.2[|trace|].Store?
  {
    if peerId !in states || !states[peerId].Connected? then (Ok(()), states, trace)
    else
      var peer := states[peerId];
      var cleared := Cleared(states, peerId);
      if peer.downloadingPiece.None? || peer.downloadingSince.None? then (Ok(()), cleared, trace)
      else
        var index := peer.downloadingPiece.value;
        var saved := trace + [Store(index, piece)];
        if !saveOk then (Err(SaveFailed), cleared, saved)
        else
          var sent := saved + Notifications(cleared, order, peerId, index);
          var selected := sent + [Select(Downloadable(matchPieces, downloaded, peer.pieces), peerId)];
          (if selectOk then Ok(()) else Err(SelectFailed), cleared, selected)
  }

  /** The peer map of a torrent being downloaded, and what has been done on its behalf. */
  class Swarm {
    var peerStates: map<Uuid, TorrentPeerState>
    var trace: seq<Effect>

    constructor(peerStates: map<Uuid, TorrentPeerState>)
      ensures this.peerStates == peerStates && trace == []
    {
      this.peerStates := peerStates;
      trace := [];
    }

    /**
     * `process_peer_piece_downloaded`.  `downloaded` is the storage's record
     * of saved pieces, `saveOk` and `selectOk` the outcomes of the save and of
     * the peer selection.
     */
    method ProcessPeerPieceDownloaded(
      order: seq<Uuid>, peerId: Uuid, piece: seq<Byte>, downloaded: seq<Byte>,
      matchPieces: (seq<nat>, seq<Byte>, nat, Byte) -> seq<nat>, saveOk: bool, selectOk: bool)
      returns (r: Result<(), RustorrentError>)
      requires Walks(order, peerStates)
      modifies this
      ensures (r, peerStates, trace)
              == Process(old(peerStates), old(trace), order, peerId, piece, downloaded, matchPieces, saveOk, selectOk)
    {
      if peerId !in peerStates || !peerStates[peerId].Connected? {
        return Ok(());
      }
      var existing := peerStates[peerId];
      var downloadingPiece := existing.downloadingPiece;
      var downloadingSince := existing.downloadingSince;
      peerStates := peerStates[peerId := existing.(downloadingPiece := None, downloadingSince := None)];
      if downloadingPiece.None? || downloadingSince.None? {
        return Ok(());
      }
      var index := downloadingPiece.value;
      trace := trace + [Store(index, piece)];
      if !saveOk {
        return Err(SaveFailed);
      }

      var downloadable := CollectDownloadable(matchPieces, downloaded, existing.pieces);
      var sent := NotifyPeers(peerStates, order, peerId, index);
      trace := trace + sent;
      trace := trace + [Select(downloadable, peerId)];
      if !selectOk {
        return Err(SelectFailed);
      }
      return Ok(());
    }
  }

  /** The notification loop: walks the peers in `order` and sends `Have` and `Cancel` as `Notify` says. */
  method NotifyPeers(states: map<Uuid, TorrentPeerState>, order: seq<Uuid>, peerId: Uuid, index: Usize)
    returns (sent: seq<Effect>)
    requires forall k :: 0 <= k < |order| ==> order[k] in states
    ensures sent == Notifications(states, order, peerId, index)
  {
    sent := [];
    for j := 0 to |order|
      invariant sent == Notifications(states, order[..j], peerId, index)
    {
      NotificationsStep(states, order, peerId, index, j);
      ghost var before := sent;
      var id := order[j];
      if id != peerId {
        var state := states[id];
        if state.Connected? {
          var peerAlreadyHasPiece := BitByIndex(index, state.pieces).Some?;
          if !peerAlreadyHasPiece {
            sent := sent + [Send(id, Have(index))];
            if state.downloadingPiece == Some(index) {
              sent := sent + [Send(id, Cancel)];
            }
          }
        }
      }
      assert sent == before + (if id == peerId then [] else Notify(id, states[id], index));
    }
    assert order[..|order|] == order;
  }

  /** One more peer of the walk adds its own notifications at the end. */
  lemma NotificationsStep(states: map<Uuid, TorrentPeerState>, order: seq<Uuid>, peerId: Uuid, index: Usize, j: nat)
    requires forall k :: 0 <= k < |order| ==> order[k] in states
    requires j < |order|
    ensures Notifications(states, order[..j + 1], peerId, index)
            == Notifications(states, order[..j], peerId, index)
               + (if order[j] == peerId then [] else Notify(order[j], states[order[j]], index))
  {
    assert order[..j + 1][..j] == order[..j];
  }

  /** The loop over the originating peer's bitfield that builds the list handed to the peer selection. */
  method CollectDownloadable(matchPieces: (seq<nat>, seq<Byte>, nat, Byte) -> seq<nat>, downloaded: seq<Byte>, pieces: seq<Byte>)
    returns (downloadable: seq<nat>)
    ensures downloadable == Downloadable(matchPieces, downloaded, pieces)
  {
    downloadable := [];
    for i := 0 to |pieces|
      invariant downloadable == Downloadable(matchPieces, downloaded, pieces[..i])
    {
      assert pieces[..i + 1][..i] == pieces[..i];
      downloadable := matchPieces(downloadable, downloaded, i, pieces[i]);
    }
    assert pieces[..|pieces|] == pieces;
  }

  // ---------------------------------------------------------------------------
  // What the operation promises

  /** An absent or unconnected peer: nothing changes, nothing is saved or sent, and the result is `Ok`. */
  lemma NothingForUnconnectedPeer(
    states: map<Uuid, TorrentPeerState>, trace: seq<Effect>, order: seq<Uuid>, peerId: Uuid, piece: seq<Byte>,
    downloaded: seq<Byte>, matchPieces: (seq<nat>, seq<Byte>, nat, Byte) -> seq<nat>, saveOk: bool, selectOk: bool)
    requires Walks(order, states)
    requires peerId !in states || !states[peerId].Connected?
    ensures Process(states, trace, order, peerId, piece, downloaded, matchPieces, saveOk, selectOk) == (Ok(()), states, trace)
  {
  }

  /**
   * For a connected peer both slots are empty afterwards, whichever of them
   * was set, and no other peer's state changes.
   */
  lemma SlotsCleared(
    states: map<Uuid, TorrentPeerState>, trace: seq<Effect>, order: seq<Uuid>, peerId: Uuid, piece: seq<Byte>,
    downloaded: seq<Byte>, matchPieces: (seq<nat>, seq<Byte>, nat, Byte) -> seq<nat>, saveOk: bool, selectOk: bool)
    requires Walks(order, states)
    requires peerId in states && states[peerId].Connected?
    ensures var after := Process(states, trace, order, peerId, piece, downloaded, matchPieces, saveOk, selectOk).1;
            && after.Keys == states.Keys
            && after[peerId].Connected?
            && after[peerId].downloadingPiece.None? && after[peerId].downloadingSince.None?
            && after[peerId].pieces == states[peerId].pieces
            && forall id :: id in states && id != peerId ==> after[id] == states[id]
  {
  }

  /**
   * The piece is saved, as the first new effect, only when both slots were
   * set; a failed save ends the operation with the error, before any message
   * or selection.
   */
  lemma SavedOnlyWhenDownloading(
    states: map<Uuid, TorrentPeerState>, trace: seq<Effect>, order: seq<Uuid>, peerId: Uuid, piece: seq<Byte>,
    downloaded: seq<Byte>, matchPieces: (seq<nat>, seq<Byte>, nat, Byte) -> seq<nat>, saveOk: bool, selectOk: bool)
    requires Walks(order, states)
    ensures var (r, _, after) := Process(states, trace, order, peerId, piece, downloaded, matchPieces, saveOk, selectOk);
            var downloading := peerId in states && states[peerId].Connected?
                               && states[peerId].downloadingPiece.Some? && states[peerId].downloadingSince.Some?;
            && (downloading ==> trace + [Store(states[peerId].downloadingPiece.value, piece)] <= after)
            && (!downloading ==> after == trace && r == Ok(()))
            && (downloading && !saveOk ==> r == Err(SaveFailed) && after == trace + [Store(states[peerId].downloadingPiece.value, piece)])
  {
  }

  /**
   * After a successful save the trace goes on with the notifications of the
   * other peers and ends with one call of the selection, given the originating
   * peer's downloadable list; its error is the result.  So the save comes
   * first, every message of the call comes before the selection, and the
   * selection is the last thing done.
   */
  lemma NotifiesThenSelects(
    states: map<Uuid, TorrentPeerState>, trace: seq<Effect>, order: seq<Uuid>, peerId: Uuid, piece: seq<Byte>,
    downloaded: seq<Byte>, matchPieces: (seq<nat>, seq<Byte>, nat, Byte) -> seq<nat>, saveOk: bool, selectOk: bool)
    requires Walks(order, states)
    requires peerId in states && states[peerId].Connected?
    requires states[peerId].downloadingPiece.Some? && states[peerId].downloadingSince.Some?
    requires saveOk
    ensures var (r, after, out) := Process(states, trace, order, peerId, piece, downloaded, matchPieces, saveOk, selectOk);
            var index := states[peerId].downloadingPiece.value;
            && out == trace + [Store(index, piece)] + Notifications(after, order, peerId, index)
                      + [Select(Downloadable(matchPieces, downloaded, states[peerId].pieces), peerId)]
            && (r.Ok? <==> selectOk)
    ensures var out := Process(states, trace, order, peerId, piece, downloaded, matchPieces, saveOk, selectOk).2;
            && |out| >= |trace| + 2
            && out[|trace|].Store?
            && (forall k :: |trace| < k < |out| - 1 ==> out[k].Send?)
            && out[|out| - 1].Select?
  {
    var (_, after, out) := Process(states, trace, order, peerId, piece, downloaded, matchPieces, saveOk, selectOk);
    var index := states[peerId].downloadingPiece.value;
    var sent := Notifications(after, order, peerId, index);
    forall k | |trace| < k < |out| - 1
      ensures out[k].Send?
    {
      assert out[k] == sent[k - |trace| - 1];
    }
  }

  // ---------------------------------------------------------------------------
  // Who is told what

  /**
   * `Have(index)` goes exactly to the other connected peers in the walk whose
   * bitfield lacks the piece.
   */
  lemma {:induction false} HaveSent(states: map<Uuid, TorrentPeerState>, order: seq<Uuid>, peerId: Uuid, index: Usize, id: Uuid)
    requires forall k :: 0 <= k < |order| ==> order[k] in states
    ensures Send(id, Have(index)) in Notifications(states, order, peerId, index)
            <==> id in order && id != peerId && states[id].Connected? && !HasPiece(states[id].pieces, index)
  {
    if order != [] {
      var front := order[..|order| - 1];
      var last := order[|order| - 1];
      HaveSent(states, front, peerId, index, id);
      LastSplit(order);
      if states[last].Connected? {
        BitByIndexHasPiece(index, states[last].pieces);
      }
    }
  }

  /** `Cancel` goes exactly to the peers told `Have` that are fetching that piece. */
  lemma {:induction false} CancelSent(states: map<Uuid, TorrentPeerState>, order: seq<Uuid>, peerId: Uuid, index: Usize, id: Uuid)
    requires forall k :: 0 <= k < |order| ==> order[k] in states
    ensures Send(id, Cancel) in Notifications(states, order, peerId, index)
            <==> Send(id, Have(index)) in Notifications(states, order, peerId, index)
                 && states[id].Connected? && states[id].downloadingPiece == Some(index)
  {
    if order != [] {
      var front := order[..|order| - 1];
      var last := order[|order| - 1];
      CancelSent(states, front, peerId, index, id);
      HaveSent(states, front, peerId, index, id);
      var earlier := Notifications(states, front, peerId, index);
      var tail := if last == peerId then [] else Notify(last, states[last], index);
      assert Notifications(states, order, peerId, index) == earlier + tail;
      assert Send(id, Cancel) in tail <==> Send(id, Have(index)) in tail && states[id].Connected? && states[id].downloadingPiece == Some(index);
    }
  }

  /** Every `Cancel` comes right after the `Have` sent to the same peer. */
  lemma {:induction false} CancelFollowsHave(
    states: map<Uuid, TorrentPeerState>, order: seq<Uuid>, peerId: Uuid, index: Usize, id: Uuid, j: nat)
    requires forall k :: 0 <= k < |order| ==> order[k] in states
    requires j < |Notifications(states, order, peerId, index)|
    requires Notifications(states, order, peerId, index)[j] == Send(id, Cancel)
    ensures j > 0
    ensures Notifications(states, order, peerId, index)[j - 1] == Send(id, Have(index))
  {
    var front := order[..|order| - 1];
    var earlier := Notifications(states, front, peerId, index);
    if j >= |earlier| {
      assert order != [];
    } else {
      CancelFollowsHave(states, front, peerId, index, id, j);
    }
  }
}
