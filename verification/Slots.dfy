/** The external sockets that other programs use through the multiplex interrupt. */
module Slots {
  import opened Sockets
  import opened Modem

  // ---- One turn and one query, state by state ----

  /** The state a turn starts from, after a connect that was waiting for it. */
  function Started(e: Ext, env: ExtEnv): ExtState
  {
    if e.pendingConnect && env.connectFails then Failed else e.state
  }

  /** A slot gives its socket up exactly for a close; otherwise its new state tells what has become
      of the connection. */
  lemma ServicedExact(e: Ext, env: ExtEnv)
    requires e.sock >= 0
    ensures var r, s := Serviced(e, env), Started(e, env);
      (r.sock == -1 <==> s == Closing) && (r.sock != -1 ==> r.sock == e.sock) && !r.pendingConnect &&
      (r.state == Connecting <==> s == Connecting && !env.connected && !env.closed) &&
      (r.state == Established <==> (s == Connecting && env.connected) || (s == Established && !env.closed && !env.remoteGone)) &&
      (r.state == RemoteClosed <==> s == RemoteClosed || (s == Established && !env.closed && env.remoteGone)) &&
      (r.state == Failed <==> s == Failed || (env.closed && (s == Established || (s == Connecting && !env.connected)))) &&
      (r.state == Free <==> s == Free || s == Closing) && r.state != Closing
  {
  }

  /** A status query reports, and stores, the connection as it is found, and otherwise the state as
      it was. */
  lemma QueriedExact(e: Ext, env: ExtEnv)
    ensures var r := MuxActed(e, StatusOp(env));
      r.sock == e.sock && r.pendingConnect == e.pendingConnect &&
      (r.state == Established <==> (env.connected || (!env.closed && e.state == Established)) && !env.remoteGone) &&
      (r.state == RemoteClosed <==>
         (env.remoteGone && (env.connected || (!env.closed && e.state == Established))) ||
         (!env.connected && !env.closed && e.state == RemoteClosed)) &&
      (r.state == Failed <==> !env.connected && (env.closed || e.state == Failed)) &&
      (r.state == Connecting || r.state == Closing || r.state == Free ==> r.state == e.state)
  {
  }

  // ---- Over runs ----

  /** What can happen to a slot while it has a socket. */
  datatype Use = Op(op: MuxOp) | Turn(env: ExtEnv)

  function Used(e: Ext, u: Use): Ext
  {
    match u
    case Op(op) => MuxActed(e, op)
    case Turn(env) => Serviced(e, env)
  }

  function UsedAll(e: Ext, us: seq<Use>): Ext
    decreases |us|
  {
    if us == [] then e else Used(UsedAll(e, us[..|us| - 1]), us[|us| - 1])
  }

  /** mTCP says that the connection is up. */
  predicate Up(u: Use)
  {
    (u.Turn? && u.env.connected) || (u.Op? && u.op.StatusOp? && u.op.env.connected)
  }

  /** A new slot is seen established, or closed by the other side, only after mTCP has said that the
      connection was up, over every run of connects, closes, queries and turns. */
  lemma {:induction false} NeverUpUnseen(e: Ext, us: seq<Use>)
    requires e.sock >= 0 && e.state == Free
    requires UsedAll(e, us).state == Established || UsedAll(e, us).state == RemoteClosed
    ensures exists k :: 0 <= k < |us| && Up(us[k])
    decreases |us|
  {
    hide Up;
    if us != [] {
      var before, last := us[..|us| - 1], us[|us| - 1];
      var f := UsedAll(e, before);
      UpStep(f, last);
      if f.state == Established || f.state == RemoteClosed {
        NeverUpUnseen(e, before);
        var k :| 0 <= k < |before| && Up(before[k]);
        assert us[k] == before[k];
      } else {
        assert Up(us[|us| - 1]);
      }
    }
  }

  lemma UpStep(e: Ext, u: Use)
    ensures Used(e, u).state == Established || Used(e, u).state == RemoteClosed ==>
      e.state == Established || e.state == RemoteClosed || Up(u)
  {
  }
}
