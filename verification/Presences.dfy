/** Ephemeral presence: one newest record per user (collab/src/presence.rs). */
module Presences {
  import opened Options
  import opened Clocks
  import opened Crdt

  datatype Presence = Presence(
    replica: ReplicaId,
    displayName: string,
    cursor: Option<(real, real, real)>,
    selection: seq<FeatureKey>,
    epoch: nat
  )

  type Users = map<ReplicaId, Presence>

  predicate Stale(users: Users, p: Presence) {
    p.replica in users && users[p.replica].epoch >= p.epoch
  }

  function Updated(users: Users, p: Presence): Users {
    if Stale(users, p) then users else users[p.replica := p]
  }

  function Without(users: Users, replica: ReplicaId): Users {
    users - {replica}
  }

  /** Every record is stored under its own replica id. */
  predicate WellKeyed(users: Users) {
    forall replica | replica in users :: users[replica].replica == replica
  }

  function UpdatedAll(users: Users, ps: seq<Presence>): Users
    decreases |ps|
  {
    if ps == [] then users else UpdatedAll(Updated(users, ps[0]), ps[1..])
  }

  /** Whatever the arrival order, a user's record is one of the updates received and none received is newer. */
  lemma {:induction false} NewestWins(users: Users, ps: seq<Presence>, replica: ReplicaId)
    requires WellKeyed(users)
    ensures var after := UpdatedAll(users, ps);
            && WellKeyed(after)
            && (replica in after <==> replica in users || exists p :: p in ps && p.replica == replica)
            && (replica in after ==>
                  && (after[replica] in ps || (replica in users && after[replica] == users[replica]))
                  && (replica in users ==> users[replica].epoch <= after[replica].epoch)
                  && (forall p | p in ps && p.replica == replica :: p.epoch <= after[replica].epoch))
    decreases |ps|
  {
    if ps != [] {
      NewestWins(Updated(users, ps[0]), ps[1..], replica);
      assert ps == [ps[0]] + ps[1..];
    }
  }

  class PresenceMap {
    var users: Users

    constructor ()
      ensures users == map[]
    {
      users := map[];
    }

    method Update(p: Presence) returns (changed: bool)
      modifies this
      ensures users == Updated(old(users), p)
      ensures changed == !Stale(old(users), p)
    {
      if p.replica in users && users[p.replica].epoch >= p.epoch {
        changed := false;
      } else {
        users := users[p.replica := p];
        changed := true;
      }
    }

    method Remove(replica: ReplicaId) returns (present: bool)
      modifies this
      ensures users == Without(old(users), replica)
      ensures present == (replica in old(users))
    {
      present := replica in users;
      users := users - {replica};
    }
  }
}
