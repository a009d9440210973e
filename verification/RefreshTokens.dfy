/**
  Refresh tokens in the key-value store: each token's hash has a key that names
  its user, and each user has a set of hashes through which all are revoked.

  A key can be seen up to its expiry and no longer. Times are milliseconds.
 */
module RefreshTokens {
  import opened Options

  datatype Entry = Entry(value: string, expiry: int)

  datatype Members = Members(hashes: set<string>, expiry: int)

  datatype Store = Store(tokens: map<string, Entry>, users: map<string, Members>)
  {
    function Get(hash: string, now: int): Option<string> {
      if hash in tokens && now <= tokens[hash].expiry then Some(tokens[hash].value) else None
    }

    function LiveHashes(user: string, now: int): set<string> {
      if user in users && now <= users[user].expiry then users[user].hashes else {}
    }
  }

  function TokenValue(tenant: string, user: string): string {
    tenant + ":" + user
  }

  /** The part of a text after its last colon; all of it, when it has none. */
  function LastSegment(s: string): string {
    if |s| == 0 || s[|s| - 1] == ':' then "" else LastSegment(s[..|s| - 1]) + [s[|s| - 1]]
  }

  function StoreToken(s: Store, user: string, tenant: string, hash: string, ttlSeconds: nat, now: int): (Store, bool) {
    if ttlSeconds == 0 then (s, false)
    else
      var expiry := now + ttlSeconds * 1000;
      (Store(s.tokens[hash := Entry(TokenValue(tenant, user), expiry)],
             s.users[user := Members(s.LiveHashes(user, now) + {hash}, expiry)]), true)
  }

  function Revoke(s: Store, hash: string, now: int): Store {
    var value := s.Get(hash, now);
    if value.None? then s
    else
      var user := LastSegment(value.value);
      var left := s.LiveHashes(user, now) - {hash};
      Store(s.tokens - {hash}, if left == {} then s.users - {user} else s.users[user := s.users[user].(hashes := left)])
  }

  function RevokeAll(s: Store, user: string, now: int): Store {
    Store(s.tokens - s.LiveHashes(user, now), s.users - {user})
  }

  class TokenStore {
    var tokens: map<string, Entry>
    var users: map<string, Members>

    ghost function Contents(): Store
      reads this
    {
      Store(tokens, users)
    }

    constructor ()
      ensures Contents() == Store(map[], map[])
    {
      tokens, users := map[], map[];
    }

    method StoreRefreshToken(user: string, tenant: string, hash: string, ttlSeconds: nat, now: int)
      returns (stored: bool)
      modifies this
      ensures (Contents(), stored) == StoreToken(old(Contents()), user, tenant, hash, ttlSeconds, now)
    {
      if ttlSeconds == 0 {
        return false;
      }
      tokens := tokens[hash := Entry(TokenValue(tenant, user), now + ttlSeconds * 1000)];
      if user in users && now <= users[user].expiry {
        users := users[user := users[user].(hashes := users[user].hashes + {hash})];
      } else {
        users := users[user := Members({hash}, now)];
      }
      users := users[user := users[user].(expiry := now + ttlSeconds * 1000)];
      ghost var live := old(Contents()).LiveHashes(user, now);
      assert live == {} ==> live + {hash} == {hash};
      assert users == old(users)[user := Members(live + {hash}, now + ttlSeconds * 1000)];
      return true;
    }

    method GetUserIdByRefreshToken(hash: string, now: int) returns (value: Option<string>)
      ensures value == Contents().Get(hash, now)
    {
      value := if hash in tokens && now <= tokens[hash].expiry then Some(tokens[hash].value) else None;
    }

    method RevokeRefreshToken(hash: string, now: int)
      modifies this
      ensures Contents() == Revoke(old(Contents()), hash, now)
    {
      var value := GetUserIdByRefreshToken(hash, now);
      if value.Some? {
        var user := LastSegment(value.value);
        tokens := tokens - {hash};
        if user in users && now <= users[user].expiry && users[user].hashes - {hash} != {} {
          users := users[user := users[user].(hashes := users[user].hashes - {hash})];
        } else {
          users := users - {user};
        }
      }
    }

    method RevokeAllUserTokens(user: string, now: int)
      modifies this
      ensures Contents() == RevokeAll(old(Contents()), user, now)
    {
      var hashes := if user in users && now <= users[user].expiry then users[user].hashes else {};
      var rest := hashes;
      while rest != {}
        invariant rest <= hashes && tokens == old(tokens) - (hashes - rest)
        invariant users == old(users)
        decreases |rest|
      {
        var hash :| hash in rest;
        tokens := tokens - {hash};
        rest := rest - {hash};
      }
      users := users - {user};
    }
  }

  // ---------- Whose token it is ----------

  lemma {:induction false} LastSegmentHasNoColon(s: string)
    ensures ':' !in LastSegment(s)
  {
    if |s| > 0 {
      LastSegmentHasNoColon(s[..|s| - 1]);
    }
  }

  lemma {:induction false} ColonFreeTail(tenant: string, user: string)
    requires ':' !in user
    ensures LastSegment(TokenValue(tenant, user)) == user
  {
    if |user| > 0 {
      var n := |user| - 1;
      ColonFreeTail(tenant, user[..n]);
      assert TokenValue(tenant, user)[..|tenant| + 1 + n] == TokenValue(tenant, user[..n]);
      assert user == user[..n] + [user[n]];
    }
  }

  /** A stored value gives its user back, whatever colons the tenant has, just when the user has none. */
  lemma ValueTellsUserExactlyWhen(tenant: string, user: string)
    ensures LastSegment(TokenValue(tenant, user)) == user <==> ':' !in user
  {
    LastSegmentHasNoColon(TokenValue(tenant, user));
    if ':' !in user {
      ColonFreeTail(tenant, user);
    }
  }

  // ---------- The users' sets index the live tokens ----------

  /**
    Every live token is in the set of the user it belongs to, and the set lives
    as long as the token; no set holds a hash of another user.
   */
  ghost predicate Indexed(s: Store, owner: string -> string, now: int) {
    && (forall h :: h in s.tokens && now <= s.tokens[h].expiry ==> Reachable(s, owner, h, now))
    && (forall u, h :: u in s.users && now <= s.users[u].expiry && h in s.users[u].hashes ==> owner(h) == u)
  }

  ghost predicate Reachable(s: Store, owner: string -> string, h: string, now: int)
    requires h in s.tokens
  {
    && LastSegment(s.tokens[h].value) == owner(h)
    && h in s.LiveHashes(owner(h), now) && s.tokens[h].expiry <= s.users[owner(h)].expiry
  }

  lemma IndexedLater(s: Store, owner: string -> string, t: int, now: int)
    requires t <= now && Indexed(s, owner, t)
    ensures Indexed(s, owner, now)
  {
    hide LastSegment;
    assert forall h :: h in s.tokens && now <= s.tokens[h].expiry ==> Reachable(s, owner, h, t);
  }

  /** No live token of the user would outlive the new one. */
  ghost predicate NoneOutlives(s: Store, owner: string -> string, user: string, hash: string, expiry: int, now: int) {
    forall h :: h in s.tokens && h != hash && now <= s.tokens[h].expiry && owner(h) == user ==>
      s.tokens[h].expiry <= expiry
  }

  /** Storing a token keeps the index just when no live token of the user would outlive it. */
  lemma StoreKeepsIndexExactlyWhen(s: Store, owner: string -> string, user: string, tenant: string, hash: string,
                                   ttlSeconds: nat, now: int)
    requires Indexed(s, owner, now) && owner(hash) == user && ':' !in user && ttlSeconds > 0
    ensures Indexed(StoreToken(s, user, tenant, hash, ttlSeconds, now).0, owner, now)
       <==> NoneOutlives(s, owner, user, hash, now + ttlSeconds * 1000, now)
  {
    ColonFreeTail(tenant, user);
    hide LastSegment, TokenValue;
    var s' := StoreToken(s, user, tenant, hash, ttlSeconds, now).0;
    assert Reachable(s', owner, hash, now);
    forall h | h in s.tokens && h != hash && now <= s.tokens[h].expiry
      ensures Reachable(s', owner, h, now) <==> (owner(h) == user ==> s.tokens[h].expiry <= now + ttlSeconds * 1000)
    {
      assert Reachable(s, owner, h, now) && s'.tokens[h] == s.tokens[h];
    }
    assert forall u, h :: u in s'.users && now <= s'.users[u].expiry && h in s'.users[u].hashes ==> owner(h) == u;
    hide Reachable;
  }

  lemma RevokeKeepsIndex(s: Store, owner: string -> string, hash: string, now: int)
    requires Indexed(s, owner, now)
    ensures Indexed(Revoke(s, hash, now), owner, now)
  {
    hide LastSegment;
    if s.Get(hash, now).Some? {
      var s' := Revoke(s, hash, now);
      assert Reachable(s, owner, hash, now);
      assert forall h :: h in s'.tokens && now <= s'.tokens[h].expiry ==>
               Reachable(s, owner, h, now) && Reachable(s', owner, h, now);
      hide Reachable;
    }
  }

  lemma RevokeAllKeepsIndex(s: Store, owner: string -> string, user: string, now: int)
    requires Indexed(s, owner, now)
    ensures Indexed(RevokeAll(s, user, now), owner, now)
    ensures forall h :: RevokeAll(s, user, now).Get(h, now) == if owner(h) == user then None else s.Get(h, now)
  {
    hide LastSegment;
    var s' := RevokeAll(s, user, now);
    assert forall h :: h in s.tokens && now <= s.tokens[h].expiry ==> Reachable(s, owner, h, now);
    assert forall h :: h in s'.tokens && now <= s'.tokens[h].expiry ==>
             Reachable(s, owner, h, now) && Reachable(s', owner, h, now);
    hide Reachable;
  }

  /** A second token with a shorter life cuts the set's life short: revoking all then leaves the first one live. */
  lemma ShorterTokenEscapesRevocation(user: string, tenant: string, first: string, second: string)
    requires first != second
    ensures var s1 := StoreToken(Store(map[], map[]), user, tenant, first, 10, 0).0;
            var s2 := StoreToken(s1, user, tenant, second, 1, 0).0;
            RevokeAll(s2, user, 5000).Get(first, 5000) == Some(TokenValue(tenant, user))
  {
  }

  // ---------- Runs ----------

  datatype Op =
    | Issue(user: string, tenant: string, hash: string, ttlSeconds: nat, now: int)
    | Withdraw(hash: string, now: int)
    | WithdrawAll(user: string, now: int)

  function Next(s: Store, op: Op): Store {
    match op
    case Issue(user, tenant, hash, ttlSeconds, now) => StoreToken(s, user, tenant, hash, ttlSeconds, now).0
    case Withdraw(hash, now) => Revoke(s, hash, now)
    case WithdrawAll(user, now) => RevokeAll(s, user, now)
  }

  function After(ops: seq<Op>): Store {
    if |ops| == 0 then Store(map[], map[]) else Next(After(ops[..|ops| - 1]), ops[|ops| - 1])
  }

  /** What the tokens are meant to be: sessions that know their user, with no index. */
  datatype Session = Session(user: string, value: string, expiry: int)

  function WithoutUser(m: map<string, Session>, user: string): map<string, Session> {
    map h | h in m && m[h].user != user :: m[h]
  }

  function NextSessions(m: map<string, Session>, op: Op): map<string, Session> {
    match op
    case Issue(user, tenant, hash, ttlSeconds, now) =>
      if ttlSeconds == 0 then m else m[hash := Session(user, TokenValue(tenant, user), now + ttlSeconds * 1000)]
    case Withdraw(hash, now) => m - {hash}
    case WithdrawAll(user, now) => WithoutUser(m, user)
  }

  function Sessions(ops: seq<Op>): map<string, Session> {
    if |ops| == 0 then map[] else NextSessions(Sessions(ops[..|ops| - 1]), ops[|ops| - 1])
  }

  function Active(m: map<string, Session>, hash: string, now: int): Option<string> {
    if hash in m && now <= m[hash].expiry then Some(m[hash].value) else None
  }

  /** Time goes on, and a token issued later to the same user expires no earlier. */
  ghost predicate InOrder(ops: seq<Op>) {
    && (forall i, j :: 0 <= i < j < |ops| ==> ops[i].now <= ops[j].now)
    && (forall i, j ::
          && 0 <= i < j < |ops| && ops[i].Issue? && ops[j].Issue? && ops[i].user == ops[j].user
          && ops[i].ttlSeconds > 0 && ops[j].ttlSeconds > 0
          ==> ops[i].now + ops[i].ttlSeconds * 1000 <= ops[j].now + ops[j].ttlSeconds * 1000)
  }

  /** User ids have no colon, and no hash is issued to two users. */
  ghost predicate Owned(ops: seq<Op>, owner: string -> string) {
    forall i :: 0 <= i < |ops| && ops[i].Issue? ==> ':' !in ops[i].user && owner(ops[i].hash) == ops[i].user
  }

  ghost predicate Agree(s: Store, m: map<string, Session>, owner: string -> string, now: int) {
    && (forall h :: h in m ==> m[h].user == owner(h))
    && (forall h :: (h in s.tokens && now <= s.tokens[h].expiry) <==> (h in m && now <= m[h].expiry))
    && (forall h :: h in m && now <= m[h].expiry ==> s.tokens[h] == Entry(m[h].value, m[h].expiry))
  }

  /** Every live session's expiry comes from an earlier issue to its user. */
  ghost predicate Issued(m: map<string, Session>, ops: seq<Op>) {
    forall h :: h in m ==>
      exists i :: 0 <= i < |ops| && ops[i].Issue? && ops[i].user == m[h].user && ops[i].ttlSeconds > 0
                  && m[h].expiry == ops[i].now + ops[i].ttlSeconds * 1000
  }

  lemma {:induction false} SessionsAreIssued(ops: seq<Op>)
    ensures Issued(Sessions(ops), ops)
  {
    if |ops| > 0 {
      var n := |ops| - 1;
      SessionsAreIssued(ops[..n]);
      var before, after := Sessions(ops[..n]), Sessions(ops);
      forall h | h in after
        ensures exists i :: 0 <= i < |ops| && ops[i].Issue? && ops[i].user == after[h].user && ops[i].ttlSeconds > 0
                            && after[h].expiry == ops[i].now + ops[i].ttlSeconds * 1000
      {
        if h in before && after[h] == before[h] {
          var i :| 0 <= i < n && ops[..n][i].Issue? && ops[..n][i].user == before[h].user && ops[..n][i].ttlSeconds > 0
                   && before[h].expiry == ops[..n][i].now + ops[..n][i].ttlSeconds * 1000;
          assert ops[i] == ops[..n][i];
        } else {
          assert ops[n].Issue? && ops[n].hash == h;
        }
      }
    }
  }

  lemma IssueOutlives(ops: seq<Op>, s: Store, m: map<string, Session>, owner: string -> string)
    requires |ops| > 0 && InOrder(ops) && ops[|ops| - 1].Issue? && ops[|ops| - 1].ttlSeconds > 0
    requires m == Sessions(ops[..|ops| - 1]) && Agree(s, m, owner, ops[|ops| - 1].now)
    ensures var op := ops[|ops| - 1];
            NoneOutlives(s, owner, op.user, op.hash, op.now + op.ttlSeconds * 1000, op.now)
  {
    var n := |ops| - 1;
    var op := ops[n];
    SessionsAreIssued(ops[..n]);
    forall h | h in s.tokens && op.now <= s.tokens[h].expiry && owner(h) == op.user
      ensures s.tokens[h].expiry <= op.now + op.ttlSeconds * 1000
    {
      var i :| 0 <= i < n && ops[..n][i].Issue? && ops[..n][i].user == m[h].user && ops[..n][i].ttlSeconds > 0
               && m[h].expiry == ops[..n][i].now + ops[..n][i].ttlSeconds * 1000;
      assert ops[i] == ops[..n][i];
    }
  }

  lemma AgreeLater(s: Store, m: map<string, Session>, owner: string -> string, t: int, now: int)
    requires t <= now && Agree(s, m, owner, t)
    ensures Agree(s, m, owner, now)
  {
  }

  lemma {:induction false} RunsAgree(ops: seq<Op>, owner: string -> string, now: int)
    requires InOrder(ops) && Owned(ops, owner) && (|ops| > 0 ==> ops[|ops| - 1].now <= now)
    ensures Indexed(After(ops), owner, now) && Agree(After(ops), Sessions(ops), owner, now)
  {
    if |ops| > 0 {
      var n := |ops| - 1;
      var op := ops[n];
      var s, m := After(ops[..n]), Sessions(ops[..n]);
      RunsAgree(ops[..n], owner, op.now);
      if op.Issue? {
        OwnedLast(ops, owner);
        if op.ttlSeconds > 0 {
          IssueOutlives(ops, s, m, owner);
        }
      }
      hide Indexed, Agree, Next, NextSessions, NoneOutlives, InOrder, Owned;
      StepAgrees(s, m, owner, op);
      IndexedLater(After(ops), owner, op.now, now);
      AgreeLater(After(ops), Sessions(ops), owner, op.now, now);
    }
  }

  lemma StepAgrees(s: Store, m: map<string, Session>, owner: string -> string, op: Op)
    requires Indexed(s, owner, op.now) && Agree(s, m, owner, op.now)
    requires op.Issue? ==> ':' !in op.user && owner(op.hash) == op.user
    requires op.Issue? && op.ttlSeconds > 0 ==>
               NoneOutlives(s, owner, op.user, op.hash, op.now + op.ttlSeconds * 1000, op.now)
    ensures Indexed(Next(s, op), owner, op.now) && Agree(Next(s, op), NextSessions(m, op), owner, op.now)
  {
    hide Indexed, Agree, NoneOutlives, StoreToken, Revoke, RevokeAll, WithoutUser;
    match op
    case Issue(user, tenant, hash, ttlSeconds, now) =>
      if ttlSeconds > 0 {
        StoreKeepsIndexExactlyWhen(s, owner, user, tenant, hash, ttlSeconds, now);
        IssueAgrees(s, m, owner, user, tenant, hash, ttlSeconds, now);
      } else {
        NothingStored(s, user, tenant, hash, now);
      }
    case Withdraw(hash, now) =>
      RevokeKeepsIndex(s, owner, hash, now);
      WithdrawAgrees(s, m, owner, hash, now);
    case WithdrawAll(user, now) =>
      RevokeAllKeepsIndex(s, owner, user, now);
      WithdrawAllAgrees(s, m, owner, user, now);
  }

  lemma OwnedLast(ops: seq<Op>, owner: string -> string)
    requires |ops| > 0 && Owned(ops, owner) && ops[|ops| - 1].Issue?
    ensures var op := ops[|ops| - 1]; ':' !in op.user && owner(op.hash) == op.user
  {
  }

  lemma NothingStored(s: Store, user: string, tenant: string, hash: string, now: int)
    ensures StoreToken(s, user, tenant, hash, 0, now).0 == s
  {
  }

  lemma IssueAgrees(s: Store, m: map<string, Session>, owner: string -> string, user: string, tenant: string,
                    hash: string, ttlSeconds: nat, now: int)
    requires Agree(s, m, owner, now) && owner(hash) == user && ttlSeconds > 0
    ensures Agree(StoreToken(s, user, tenant, hash, ttlSeconds, now).0,
                  m[hash := Session(user, TokenValue(tenant, user), now + ttlSeconds * 1000)], owner, now)
  {
    hide TokenValue;
  }

  lemma WithdrawAgrees(s: Store, m: map<string, Session>, owner: string -> string, hash: string, now: int)
    requires Agree(s, m, owner, now)
    ensures Agree(Revoke(s, hash, now), m - {hash}, owner, now)
  {
    hide LastSegment;
  }

  lemma WithdrawAllAgrees(s: Store, m: map<string, Session>, owner: string -> string, user: string, now: int)
    requires Agree(s, m, owner, now)
    requires forall h :: RevokeAll(s, user, now).Get(h, now) == if owner(h) == user then None else s.Get(h, now)
    ensures Agree(RevokeAll(s, user, now), WithoutUser(m, user), owner, now)
  {
    var s' := RevokeAll(s, user, now);
    assert forall h :: (h in s'.tokens && now <= s'.tokens[h].expiry) <==> s'.Get(h, now).Some?;
    assert forall h :: h in s'.tokens ==> s'.tokens[h] == s.tokens[h];
  }

  /**
    Over any run, at any later time, the store answers for every token as if
    each session knew its user: a revoked token is gone, and revoking all of a
    user's tokens takes every one of them and no one else's.
   */
  lemma TokensActAsSessions(ops: seq<Op>, owner: string -> string, hash: string, now: int)
    requires InOrder(ops) && Owned(ops, owner) && (|ops| > 0 ==> ops[|ops| - 1].now <= now)
    ensures After(ops).Get(hash, now) == Active(Sessions(ops), hash, now)
  {
    RunsAgree(ops, owner, now);
  }
}
