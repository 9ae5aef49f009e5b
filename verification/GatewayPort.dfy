/**
 One gateway port as the code keeps it: fds and 32-bit generations only. Each method is one event
 of Gateway and is proved to take the same step, so the theorems there are about this code.
 */
module GatewayPort {
  import opened Bytes
  import opened Gateway
  import opened Options

  /** What packet_queue_push_with_client stores. */
  datatype Packet = Packet(tid: Word, unit: Byte, local: bool, sock: nat, generation: nat)

  predicate Stores(p: Packet, r: Request) {
    p == Packet(r.tid, r.unit, r.local, r.fd, Generation(r.captured))
  }

  /** A frame written to a client's socket. */
  datatype Frame = Frame(sock: nat, tid: Word, unit: Byte)

  /** These frames are these deliveries, one for one. */
  ghost predicate Carry(s: State, fs: seq<Frame>, ds: seq<Delivery>) {
    |fs| == |ds| && forall i :: 0 <= i < |fs| ==>
      fs[i].sock in s.conns && s.conns[fs[i].sock] == ds[i].conn && fs[i].tid == ds[i].tid && fs[i].unit == ds[i].unit
  }

  class Port {
    var connGeneration: nat
    var clients: set<nat>
    var queue: seq<Packet>
    var pendingTid: Word
    var pendingClientSock: int
    var pendingConnGeneration: nat
    var written: seq<Frame>
    ghost var model: State

    ghost predicate Valid()
      reads this
    {
      && connGeneration == Generation(model.retired)
      && clients == model.conns.Keys
      && |queue| == |model.queue|
      && (forall i :: 0 <= i < |queue| ==> Stores(queue[i], model.queue[i]))
      && pendingTid == model.pendingTid
      && pendingClientSock == model.pendingSock
      && pendingConnGeneration == model.pendingGeneration
    }

    constructor ()
      ensures Valid() && model == Boot() && written == []
    {
      connGeneration, clients, queue := 0, {}, [];
      pendingTid, pendingClientSock, pendingConnGeneration := 0, NO_SOCK, 0;
      written := [];
      model := Boot();
    }

    method RegisterClientConn(sock: nat)
      requires Valid() && Enabled(model, Admit(sock))
      modifies `clients, `model
      ensures Valid() && model == Step(old(model), Admit(sock)).state
    {
      clients := clients + {sock};
      model := Step(model, Admit(sock)).state;
    }

    /** The generation a receive handler attaches to every frame of one recv(). */
    method SampleGeneration(sock: nat) returns (generation: nat)
      requires Valid() && Enabled(model, Recv(sock))
      modifies `model
      ensures Valid() && model == Step(old(model), Recv(sock)).state
      ensures generation == Generation(model.sampled[model.conns[sock]])
    {
      generation := connGeneration;
      model := Step(model, Recv(sock)).state;
    }

    method PushWithClient(sock: nat, generation: nat, tid: Word, unit: Byte, local: bool) returns (ok: bool)
      requires Valid() && Enabled(model, Push(sock, tid, unit, local))
      requires generation == Generation(model.sampled[model.conns[sock]])
      modifies `queue, `model
      ensures Valid() && model == Step(old(model), Push(sock, tid, unit, local)).state
      ensures ok == (|old(queue)| < QUEUE_LEN)
    {
      ok := |queue| < QUEUE_LEN;
      if ok {
        queue := queue + [Packet(tid, unit, local, sock, generation)];
      }
      model := Step(model, Push(sock, tid, unit, local)).state;
    }

    method FetchTcpRequest() returns (p: Packet)
      requires Valid() && Enabled(model, Fetch)
      modifies `queue, `pendingClientSock, `pendingConnGeneration, `model
      ensures Valid() && model == Step(old(model), Fetch).state
      ensures Stores(p, model.worker.r)
    {
      p := queue[0];
      queue := queue[1..];
      pendingClientSock, pendingConnGeneration := p.sock, p.generation;
      model := Step(model, Fetch).state;
    }

    /** tcp_server_send_to_captured_client: true when the bytes were written to the socket. */
    method SendToCapturedClient(sock: int, generation: nat, tid: Word, unit: Byte) returns (sent: bool)
      requires Valid()
      modifies `written
      ensures sent == Sendable(model, sock, generation)
      ensures written == old(written) + if sent then [Frame(sock, tid, unit)] else []
    {
      sent := generation == connGeneration && sock >= 0 && sock in clients;
      if sent {
        written := written + [Frame(sock, tid, unit)];
      }
    }

    method AnswerSelfRequest(p: Packet) returns (sent: bool)
      requires Valid() && Enabled(model, AnswerLocally) && Stores(p, model.worker.r)
      modifies `model, `written
      ensures Valid() && model == Step(old(model), AnswerLocally).state
      ensures exists fs ::
                written == old(written) + fs && Carry(old(model), fs, Step(old(model), AnswerLocally).delivered)
      ensures sent <==> Step(old(model), AnswerLocally).delivered != []
    {
      sent := SendToCapturedClient(p.sock, p.generation, p.tid, p.unit);
      ghost var fs := if sent then [Frame(p.sock, p.tid, p.unit)] else [];
      assert Carry(model, fs, Step(model, AnswerLocally).delivered);
      model := Step(model, AnswerLocally).state;
    }

    method MakeRtuRequest(p: Packet, ok: bool, transmitted: bool)
      requires Valid() && Enabled(model, Convert(ok, transmitted)) && Stores(p, model.worker.r)
      modifies `pendingTid, `model
      ensures Valid() && model == Step(old(model), Convert(ok, transmitted)).state
    {
      if ok {
        pendingTid := p.tid;
      }
      model := Step(model, Convert(ok, transmitted)).state;
    }

    /** First half of process_data_from_serial: the transaction id the reply will carry. */
    method BuildTcpReply(ghost origin: Request) returns (tid: Word, dropped: bool)
      requires Valid() && Enabled(model, BuildReply(origin))
      modifies `model
      ensures Valid() && model == Step(old(model), BuildReply(origin)).state
      ensures dropped <==> model.uart.Quiet?
      ensures !dropped ==> model.uart == Replying(origin, tid)
    {
      tid := pendingTid;
      dropped := clients == {};
      assert dropped <==> model.conns == map[] by {
        if model.conns.Keys == {} {
          assert model.conns == map[];
        }
      }
      model := Step(model, BuildReply(origin)).state;
    }

    /** Second half: addressed with whatever pair is pending by now. */
    method SendTcpReply(tid: Word, unit: Byte) returns (sent: bool)
      requires Valid() && Enabled(model, SendReply) && tid == model.uart.tid && unit == model.uart.origin.unit
      modifies `model, `written
      ensures Valid() && model == Step(old(model), SendReply).state
      ensures exists fs ::
                written == old(written) + fs && Carry(old(model), fs, Step(old(model), SendReply).delivered)
      ensures sent <==> Step(old(model), SendReply).delivered != []
    {
      sent := SendToCapturedClient(pendingClientSock, pendingConnGeneration, tid, unit);
      ghost var fs := if sent then [Frame(pendingClientSock, tid, unit)] else [];
      assert Carry(model, fs, Step(model, SendReply).delivered);
      model := Step(model, SendReply).state;
    }

    method OnTcpConnClose(sock: nat)
      requires Valid() && Enabled(model, CloseHook(sock))
      modifies `pendingTid, `pendingClientSock, `pendingConnGeneration, `model
      ensures Valid() && model == Step(old(model), CloseHook(sock)).state
    {
      if pendingClientSock == sock {
        pendingTid, pendingClientSock, pendingConnGeneration := 0, NO_SOCK, 0;
      }
      model := Step(model, CloseHook(sock)).state;
    }

    /** The only place a client socket is closed, and the only place the generation moves. */
    method RetireClientConn(sock: nat)
      requires Valid() && Enabled(model, Retire(sock))
      modifies `connGeneration, `clients, `model
      ensures Valid() && model == Step(old(model), Retire(sock)).state
    {
      connGeneration := (connGeneration + 1) % GENERATIONS;
      clients := clients - {sock};
      model := Step(model, Retire(sock)).state;
    }
  }
}
