/**
 * The in-memory store of authenticated principals: a map from token id to
 * the `Auth` that token resolved to, shared by every request behind a lock.
 * The lock is not modelled; each operation is one atomic step.
 */
module AuthSessions {
  import opened Wrappers
  import opened Catalog

  /** The simple user response: id, name, email, verification time and username. */
  datatype User = User(id: Uuid, name: string, email: string, emailVerifiedAt: Option<int>, username: string)

  /** The authenticated principal: its token id, the user, and the user's permissions and roles. */
  datatype Auth = Auth(id: Uuid, user: User, permissions: seq<Entry>, roles: seq<Entry>)

  /** A removal scheduled by `remove_delay`: `id` is to be removed after `delay` seconds. */
  datatype Removal = Removal(id: Uuid, delay: nat)

  /** What `get` sees in a map: the entry of `id`, if any. */
  function Lookup(users: map<Uuid, Auth>, id: Uuid): Option<Auth>
  {
    if id in users then Some(users[id]) else None
  }

  class Authenticated {
    var users: map<Uuid, Auth>
    /** The removals spawned by `remove_delay`, oldest first; the timer that runs them is outside the model. */
    var scheduled: seq<Removal>

    /** `Authenticated::new`: nothing is cached. */
    constructor ()
      ensures users == map[] && scheduled == []
    {
      users := map[];
      scheduled := [];
    }

    /** `get` returns a copy of the entry of `id`, or None when there is none. */
    method Get(id: Uuid) returns (r: Option<Auth>)
      ensures r.Some? <==> id in users
      ensures r.Some? ==> r.value == users[id]
      ensures r == Lookup(users, id)
    {
      if id in users {
        r := Some(users[id]);
      } else {
        r := None;
      }
    }

    /** `set` stores a copy of `auth` under `id`, replacing any earlier one. */
    method Set(id: Uuid, auth: Auth)
      modifies this
      ensures users == old(users)[id := auth] && scheduled == old(scheduled)
    {
      users := users[id := auth];
    }

    /** `remove` drops `id` and nothing else. */
    method Remove(id: Uuid)
      modifies this
      ensures users == old(users) - {id} && scheduled == old(scheduled)
    {
      users := users - {id};
    }

    /** `remove_delay` spawns a task that removes `id` after `delay`; here it is queued. */
    method RemoveDelay(id: Uuid, delay: nat)
      modifies this
      ensures users == old(users) && scheduled == old(scheduled) + [Removal(id, delay)]
    {
      scheduled := scheduled + [Removal(id, delay)];
    }
  }

  /** After `set(id, a)`, `get(id)` is `a`, and every other id reads as before. */
  lemma GetAfterSet(users: map<Uuid, Auth>, id: Uuid, a: Auth, other: Uuid)
    ensures Lookup(users[id := a], id) == Some(a)
    ensures other != id ==> Lookup(users[id := a], other) == Lookup(users, other)
  {
  }

  /** A second `set` of the same id overwrites the first. */
  lemma SetOverwrites(users: map<Uuid, Auth>, id: Uuid, a: Auth, b: Auth)
    ensures users[id := a][id := b] == users[id := b]
  {
  }

  /** After `remove(id)`, `get(id)` is None and every other id reads as before. */
  lemma GetAfterRemove(users: map<Uuid, Auth>, id: Uuid, other: Uuid)
    ensures Lookup(users - {id}, id) == None
    ensures other != id ==> Lookup(users - {id}, other) == Lookup(users, other)
  {
  }
}
