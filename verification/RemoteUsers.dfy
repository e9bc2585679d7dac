/** Which remote users a session shows: of every other user the newest record received since that user last left
  (`apply_server_message` in collab/src/wasm.rs:130-163). */
module RemoteUsers {
  import opened Clocks
  import opened Crdt
  import opened Replicas
  import opened Presences
  import opened Messages
  import opened Sessions

  /** The message brings this record of another user. */
  predicate Shows(msg: ServerMessage, me: ReplicaId, r: ReplicaId, p: Presence) {
    && r != me
    && match msg
       case PresenceOf(q) => q == p && p.replica == r
       case Welcome(_, _, users) => r in users && users[r] == p
       case _ => false
  }

  /** The user leaves at or after position `i`. */
  ghost predicate LeavesFrom(msgs: seq<ServerMessage>, i: nat, r: ReplicaId) {
    exists j :: i <= j < |msgs| && msgs[j] == Left(r)
  }

  /** One message: the newer record is kept, a leaver is dropped, and nothing else about the user changes. */
  lemma OneMessage(s: Session, msg: ServerMessage, r: ReplicaId)
    requires r != s.replica.Id()
    ensures var before, after := s.remote, s.AfterMessage(msg).remote;
            && (msg == Left(r) ==> r !in after)
            && (forall p | Shows(msg, s.replica.Id(), r, p) ::
                  r in after && after[r] == if r in before && p.epoch <= before[r].epoch then before[r] else p)
            && (msg != Left(r) && (forall p :: !Shows(msg, s.replica.Id(), r, p)) ==>
                  (r in after <==> r in before) && (r in after ==> after[r] == before[r]))
    ensures s.AfterMessage(msg).replica.Id() == s.replica.Id()
  {
    if msg.OpsFrom? {
      ReceivedAllDoc(s.replica, msg.ops);
    }
    if msg.Welcome? && r in msg.users {
      assert Shows(msg, s.replica.Id(), r, msg.users[r]);
    }
    if msg.PresenceOf? && msg.presence.replica == r {
      assert Shows(msg, s.replica.Id(), r, msg.presence);
    }
  }

  /** The record shown is one received and not followed by a leave, or the one known before if there was no leave. */
  ghost predicate Received(s: Session, msgs: seq<ServerMessage>, r: ReplicaId, p: Presence) {
    || (r in s.remote && s.remote[r] == p && !LeavesFrom(msgs, 0, r))
    || exists i :: 0 <= i < |msgs| && Shows(msgs[i], s.replica.Id(), r, p) && !LeavesFrom(msgs, i, r)
  }

  lemma ReceivedLater(s: Session, msgs: seq<ServerMessage>, r: ReplicaId, p: Presence)
    requires msgs != [] && r != s.replica.Id()
    ensures Received(s, msgs, r, p) <==>
            || (exists i :: 0 <= i < |msgs[1..]| && Shows(msgs[1..][i], s.replica.Id(), r, p) && !LeavesFrom(msgs[1..], i, r))
            || (!LeavesFrom(msgs[1..], 0, r) && (Shows(msgs[0], s.replica.Id(), r, p)
                                                 || (r in s.remote && s.remote[r] == p && msgs[0] != Left(r))))
  {
    var rest := msgs[1..];
    forall i: nat | i <= |rest|
      ensures LeavesFrom(rest, i, r) <==> LeavesFrom(msgs, i + 1, r)
    {
      if j: nat :| i <= j < |rest| && rest[j] == Left(r) {
        assert msgs[j + 1] == Left(r);
      }
      if j: nat :| i + 1 <= j < |msgs| && msgs[j] == Left(r) {
        assert rest[j - 1] == Left(r);
      }
    }
    assert LeavesFrom(msgs, 0, r) <==> msgs[0] == Left(r) || LeavesFrom(rest, 0, r) by {
      assert LeavesFrom(rest, 0, r) <==> LeavesFrom(msgs, 1, r);
    }
    if i: nat :| i < |rest| && Shows(rest[i], s.replica.Id(), r, p) && !LeavesFrom(rest, i, r) {
      assert Shows(msgs[i + 1], s.replica.Id(), r, p) && !LeavesFrom(msgs, i + 1, r);
    }
    if i: nat :| i < |msgs| && Shows(msgs[i], s.replica.Id(), r, p) && !LeavesFrom(msgs, i, r) {
      assert i > 0 ==> Shows(rest[i - 1], s.replica.Id(), r, p) && !LeavesFrom(rest, i - 1, r);
    }
  }

  /** Through any messages: a user is shown exactly when some record of theirs was received since they last left, and the
    record shown is one of these and none of them is newer. */
  lemma {:induction false} ShowsNewestSinceLeft(s: Session, msgs: seq<ServerMessage>, r: ReplicaId)
    requires r != s.replica.Id()
    ensures var after := AfterMessages(s, msgs).remote;
            && (r in after <==> exists p :: Received(s, msgs, r, p))
            && (r in after ==> Received(s, msgs, r, after[r]))
            && (r in after ==> forall p | Received(s, msgs, r, p) :: p.epoch <= after[r].epoch)
    decreases |msgs|
  {
    hide Session.AfterMessage, Received, LeavesFrom, Shows;
    if msgs == [] {
      forall p
        ensures Received(s, msgs, r, p) <==> r in s.remote && s.remote[r] == p
      {
        NothingYet(s, r, p);
      }
      assert r in s.remote ==> Received(s, msgs, r, s.remote[r]);
    } else {
      var t := s.AfterMessage(msgs[0]);
      OneMessage(s, msgs[0], r);
      ShowsNewestSinceLeft(t, msgs[1..], r);
      forall p
        ensures Received(s, msgs, r, p) ==> exists q :: Received(t, msgs[1..], r, q) && p.epoch <= q.epoch
        ensures Received(t, msgs[1..], r, p) ==> Received(s, msgs, r, p)
      {
        ReceivedLater(s, msgs, r, p);
        OneStep(s, msgs, r, p);
      }
    }
  }

  lemma NothingYet(s: Session, r: ReplicaId, p: Presence)
    ensures Received(s, [], r, p) <==> r in s.remote && s.remote[r] == p
  {
  }

  lemma OneStep(s: Session, msgs: seq<ServerMessage>, r: ReplicaId, p: Presence)
    requires msgs != [] && r != s.replica.Id()
    ensures var t := s.AfterMessage(msgs[0]);
            && (Received(s, msgs, r, p) ==> exists q :: Received(t, msgs[1..], r, q) && p.epoch <= q.epoch)
            && (Received(t, msgs[1..], r, p) ==> Received(s, msgs, r, p))
  {
    var t := s.AfterMessage(msgs[0]);
    OneMessage(s, msgs[0], r);
    ReceivedLater(s, msgs, r, p);
    hide Session.AfterMessage, LeavesFrom;
    if Received(s, msgs, r, p) {
      if exists i :: 0 <= i < |msgs[1..]| && Shows(msgs[1..][i], s.replica.Id(), r, p) && !LeavesFrom(msgs[1..], i, r) {
        assert Received(t, msgs[1..], r, p);
      } else {
        assert r in t.remote && p.epoch <= t.remote[r].epoch && Received(t, msgs[1..], r, t.remote[r]);
      }
    }
  }
}
