/** From the table to a client's screen: an event stream that has kept up rebuilds the table. */
module EndToEnd {
  import opened RouteTable
  import opened RouteHistory
  import opened EventStream
  import PruneInterleaving
  import PruneReplay

  /** A client knows an event's wire name and the JSON of a route, nothing else. */
  ghost function Update<K, D>(v: View<K, D>, e: ServerSentEvent, decode: string -> Visible<K, D>): View<K, D> {
    if e.name == "Upsert" then v[decode(e.data).key := decode(e.data)]
    else if e.name == "Delete" then v - {decode(e.data).key}
    else v
  }

  ghost function Watch<K, D>(v: View<K, D>, written: seq<ServerSentEvent>, decode: string -> Visible<K, D>): View<K, D>
    decreases |written|
  {
    if written == [] then v else Watch(Update(v, written[0], decode), written[1..], decode)
  }

  /** The hub's events are those of the store, with each route in its JSON form. */
  ghost predicate Encodes<K, D>(emitted: seq<HubEvent>, events: seq<Event<K, D>>, encode: Visible<K, D> -> string) {
    && |emitted| == |events|
    && forall i :: 0 <= i < |events| ==> emitted[i] == HubEvent(events[i].kind, encode(events[i].value))
  }

  lemma {:induction false} WatchIsReplay<K(!new), D(!new)>(
      v: View<K, D>, written: seq<ServerSentEvent>, events: seq<Event<K, D>>,
      encode: Visible<K, D> -> string, decode: string -> Visible<K, D>)
    requires forall x :: decode(encode(x)) == x
    requires |written| == |events|
    requires forall i :: 0 <= i < |events| ==>
               written[i].name == Name(events[i].kind) && written[i].data == encode(events[i].value)
    ensures Watch(v, written, decode) == Replay(v, events)
    decreases |events|
  {
    if events != [] {
      var e := events[0];
      assert decode(written[0].data) == e.value;
      WatchIsReplay(Receive(v, e), written[1..], events[1..], encode, decode);
    }
  }

  /**
   A client that subscribed while the table was empty and whose connection has kept up and has failed no
   write, in any interleaving of requests, prunes and the connection's own steps: what it holds is the table
   without the lost keys, up to expiries still to be reported. Between prunes it holds exactly the stored
   routes if and only if no key is lost.
   */
  lemma ClientSeesTable<K(!new), D(!new)>(
      h: seq<PruneInterleaving.Action<K, D>>, cfg: Config<D>, c: seq<Action>,
      encode: Visible<K, D> -> string, decode: string -> Visible<K, D>)
    requires PruneInterleaving.History(h, cfg) && History(c) && CaughtUp(At(c))
    requires forall x :: decode(encode(x)) == x
    requires Encodes(At(c).emitted, PruneInterleaving.At(h, cfg).log, encode)
    ensures PruneReplay.Follows(Watch(map[], At(c).written, decode), PruneInterleaving.At(h, cfg),
                                PruneReplay.Lost(h, cfg))
    ensures PruneInterleaving.At(h, cfg).prunes == map[] ==>
              (Mirrors(Watch(map[], At(c).written, decode), PruneInterleaving.At(h, cfg).table)
               <==> PruneReplay.Lost(h, cfg) == {})
  {
    StreamIsFaithful(c);
    NothingOutstanding(c);
    WatchIsReplay(map[], At(c).written, PruneInterleaving.At(h, cfg).log, encode, decode);
    PruneReplay.ReplayFollows(h, cfg);
    if PruneInterleaving.At(h, cfg).prunes == map[] { PruneReplay.ReplayRightIff(h, cfg); }
  }
}
