/** The handshake channel: two pipes, crossed over, carrying staged messages.

    A pipe is its log of messages, how many have been read, and how many descriptors are open at
    either end. A read on an empty pipe blocks while a writer is left and is an end of file after
    that; a write without readers fails. */
module Ipc {
  import opened Wrappers

  datatype Network = Network(mode: string, ip: string, peer: string)
  datatype Config = Config(id: string, awaitStart: bool, netns: bool, network: Network)

  datatype Stage = StageConfig | StageChildBooted | StageParentReady | StageChildJailed | StageError
  datatype Body = NoBody | ConfigBody(config: Config) | NetworkBody(network: Network)

  /** `Torn` is what a writer that dies inside a write leaves behind. */
  datatype Message = Message(stage: Stage, body: Body) | Torn

  datatype Failure = EndOfFile | PeerFailed | OutOfOrder | Undecodable
  datatype Outcome = Blocked | Failed(why: Failure) | Got(body: Body)

  /** What waiting for `want` comes to, given what is unread and whether a writer is left. `into`: the
      caller has a value to decode the body into, which an absent body cannot be. */
  function Receive(unread: seq<Message>, writers: bool, want: Stage, into: bool): Outcome {
    if unread == [] || unread[0] == Torn then (if writers then Blocked else Failed(EndOfFile))
    else if unread[0].stage == StageError then Failed(PeerFailed)
    else if unread[0].stage != want then Failed(OutOfOrder)
    else if into && unread[0].body.NoBody? then Failed(Undecodable)
    else Got(unread[0].body)
  }

  class Channel {
    var log: seq<Message>
    var taken: nat
    var readers: nat
    var writers: nat

    constructor ()
      ensures log == [] && taken == 0 && readers == 1 && writers == 1
    {
      log, taken, readers, writers := [], 0, 1, 1;
    }

    predicate Valid()
      reads this
    {
      taken <= |log|
    }

    function Unread(): seq<Message>
      requires Valid()
      reads this
    {
      log[taken..]
    }
  }

  class Pipe {
    const r: Channel
    const w: Channel

    constructor (r: Channel, w: Channel)
      ensures this.r == r && this.w == w
    {
      this.r, this.w := r, w;
    }

    /** Announces a stage, with a body if there is one. It fails when nobody can read it. */
    method Send(stage: Stage, body: Body) returns (ok: bool)
      requires w.Valid()
      modifies w`log
      ensures w.Valid()
      ensures ok <==> w.readers > 0
      ensures w.log == if ok then old(w.log) + [Message(stage, body)] else old(w.log)
    {
      ok := w.readers > 0;
      if ok {
        w.log := w.log + [Message(stage, body)];
      }
    }

    /** The call returns only where it does not block. */
    method AwaitJSON(want: Stage, into: bool) returns (o: Outcome)
      requires r.Valid() && !Receive(r.Unread(), r.writers > 0, want, into).Blocked?
      modifies r`taken
      ensures r.Valid()
      ensures o == Receive(old(r.Unread()), old(r.writers) > 0, want, into)
      ensures r.taken == if o == Failed(EndOfFile) then old(r.taken) else old(r.taken) + 1
    {
      if r.taken == |r.log| || r.log[r.taken] == Torn {
        return Failed(EndOfFile);
      }
      var m := r.log[r.taken];
      r.taken := r.taken + 1;
      if m.stage == StageError {
        return Failed(PeerFailed);
      }
      if m.stage != want {
        return Failed(OutOfOrder);
      }
      if into && m.body.NoBody? {
        return Failed(Undecodable);
      }
      return Got(m.body);
    }

    /** Clone gives the child its own descriptors for the ends of this pipe. */
    method Duplicate()
      requires r != w
      modifies r`readers, w`writers
      ensures r.readers == old(r.readers) + 1 && w.writers == old(w.writers) + 1
    {
      r.readers, w.writers := r.readers + 1, w.writers + 1;
    }

    /** Close, or the exit of the process holding these descriptors. */
    method Close()
      requires r != w && r.readers > 0 && w.writers > 0
      modifies r`readers, w`writers
      ensures r.readers == old(r.readers) - 1 && w.writers == old(w.writers) - 1
    {
      r.readers, w.writers := r.readers - 1, w.writers - 1;
    }
  }

  /** Making a pipe can fail. The first one, if it was made, is closed again when the second fails. */
  method Pair(firstFails: bool, secondFails: bool) returns (pair: Option<(Pipe, Pipe)>, ghost first: Option<Channel>)
    ensures pair.Some? <==> !firstFails && !secondFails
    ensures pair.Some? ==>
              var (parent, child) := pair.value;
              && fresh(parent) && fresh(child) && fresh(parent.r) && fresh(parent.w) && parent.r != parent.w
              && parent.r == child.w && parent.w == child.r
              && parent.r.log == parent.w.log == [] && parent.r.taken == parent.w.taken == 0
              && parent.r.readers == parent.r.writers == parent.w.readers == parent.w.writers == 1
    ensures first.Some? <==> !firstFails
    ensures first.Some? && pair.None? ==> first.value.readers == first.value.writers == 0
  {
    pair, first := None, None;
    if firstFails {
      return;
    }
    var c2p := new Channel();
    first := Some(c2p);
    if secondFails {
      c2p.readers, c2p.writers := 0, 0;
      return;
    }
    var p2c := new Channel();
    var parent := new Pipe(c2p, p2c);
    var child := new Pipe(p2c, c2p);
    pair := Some((parent, child));
  }

  /** A child that exits without a word. If the parent has dropped its copies of the child's ends
      its wait ends with an end of file; if it kept them the wait never ends. */
  method SilentChild(dropCopies: bool, want: Stage) returns (blocked: bool)
    ensures blocked <==> !dropCopies
  {
    var pair, first := Pair(false, false);
    var (parent, child) := pair.value;
    child.Duplicate();
    if dropCopies {
      child.Close();
    }
    child.Close();
    blocked := Receive(parent.r.Unread(), parent.r.writers > 0, want, false).Blocked?;
    if !blocked {
      var o := parent.AwaitJSON(want, false);
      assert o == Failed(EndOfFile);
    }
  }
}
