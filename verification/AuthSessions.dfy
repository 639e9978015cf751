/** The session listing agrees with what refresh accepts, in every state, and
    password reset and revoke-others act on it as their names say. */
module AuthSessions {
  import opened Wrappers
  import opened AuthStore
  import opened AuthRepo
  import opened AuthCalls
  import opened AuthInvariants

  /** Every active row once, most recently seen first, ties by creation. */
  ghost predicate IsListing(s: Store, user: UserId, listing: seq<TokenId>) {
    && (forall id :: id in listing <==> Active(s, user, id))
    && (forall j, k :: 0 <= j < k < |listing| ==> listing[j] != listing[k])
    && (forall j, k :: 0 <= j < k < |listing| ==>
          Active(s, user, listing[j]) && Active(s, user, listing[k]) ==> ListedBefore(s.refresh[listing[j]], s.refresh[listing[k]]))
  }

  /** In plain terms: the user's unrevoked rows that have not expired, each once, the last
      used first, and of rows used at one time the last created. */
  lemma ListingIs(s: Store, user: UserId, listing: seq<TokenId>)
    requires IsListing(s, user, listing)
    ensures forall id :: id in listing <==>
      0 <= id < |s.refresh| && s.refresh[id].userId == user && s.refresh[id].revokedAt == None && s.now < s.refresh[id].expiresAt
    ensures forall j, k :: 0 <= j < k < |listing| ==> listing[j] != listing[k]
    ensures forall j, k :: 0 <= j < k < |listing| && listing[j] < |s.refresh| && listing[k] < |s.refresh| ==>
      var a, b := s.refresh[listing[j]], s.refresh[listing[k]];
      b.lastSeenAt < a.lastSeenAt || (b.lastSeenAt == a.lastSeenAt && b.createdAt <= a.createdAt)
  {
  }

  ghost predicate ListsRowsBelow(s: Store, user: UserId, listing: seq<TokenId>, n: nat) {
    && (forall k :: 0 <= k < |listing| ==> listing[k] < n && Active(s, user, listing[k]))
    && (forall id :: 0 <= id < n && Active(s, user, id) ==> id in listing)
    && (forall j, k :: 0 <= j < k < |listing| ==> listing[j] != listing[k])
    && (forall j, k :: 0 <= j < k < |listing| ==> ListedBefore(s.refresh[listing[j]], s.refresh[listing[k]]))
  }

  function Inserted(listing: seq<TokenId>, p: nat, id: TokenId): (out: seq<TokenId>)
    requires p <= |listing|
    ensures |out| == |listing| + 1
    ensures forall k :: 0 <= k < |out| ==> out[k] == if k < p then listing[k] else if k == p then id else listing[k - 1]
  {
    listing[..p] + [id] + listing[p..]
  }

  lemma InsertedKeepsOrder(s: Store, user: UserId, listing: seq<TokenId>, n: nat, p: nat)
    requires ListsRowsBelow(s, user, listing, n) && Active(s, user, n) && p <= |listing|
    requires forall k :: 0 <= k < p ==> ListedBefore(s.refresh[listing[k]], s.refresh[n])
    requires p < |listing| ==> !ListedBefore(s.refresh[listing[p]], s.refresh[n])
    ensures var out := Inserted(listing, p, n);
      && (forall k :: 0 <= k < |out| ==> out[k] < |s.refresh|)
      && (forall j, k :: 0 <= j < k < |out| ==> ListedBefore(s.refresh[out[j]], s.refresh[out[k]]))
  {
    var out := Inserted(listing, p, n);
    forall j, k | 0 <= j < k < |out|
      ensures out[j] < |s.refresh| && out[k] < |s.refresh| && ListedBefore(s.refresh[out[j]], s.refresh[out[k]])
    {
      if j == p {
        assert k - 1 == p || ListedBefore(s.refresh[listing[p]], s.refresh[listing[k - 1]]);
      }
    }
  }

  lemma InsertedKeepsListing(s: Store, user: UserId, listing: seq<TokenId>, n: nat, p: nat)
    requires ListsRowsBelow(s, user, listing, n) && Active(s, user, n) && p <= |listing|
    requires forall k :: 0 <= k < p ==> ListedBefore(s.refresh[listing[k]], s.refresh[n])
    requires p < |listing| ==> !ListedBefore(s.refresh[listing[p]], s.refresh[n])
    ensures ListsRowsBelow(s, user, Inserted(listing, p, n), n + 1)
  {
    InsertedKeepsOrder(s, user, listing, n, p);
    InsertedMembers(listing, p, n);
  }

  lemma InsertedMembers(listing: seq<TokenId>, p: nat, n: nat)
    requires p <= |listing|
    requires forall k :: 0 <= k < |listing| ==> listing[k] < n
    requires forall j, k :: 0 <= j < k < |listing| ==> listing[j] != listing[k]
    ensures var out := Inserted(listing, p, n);
      && (forall k :: 0 <= k < |out| ==> out[k] == n || out[k] in listing)
      && (forall id :: id in listing ==> id in out) && n in out
      && (forall j, k :: 0 <= j < k < |out| ==> out[j] != out[k])
  {
    var out := Inserted(listing, p, n);
    assert out[p] == n;
    forall id | id in listing ensures id in out {
      var k :| 0 <= k < |listing| && listing[k] == id;
      assert out[if k < p then k else k + 1] == id;
    }
  }

  method ListActiveSessions(repo: Repo, user: UserId) returns (out: seq<TokenId>)
    ensures IsListing(repo.Contents(), user, out)
  {
    out := [];
    ghost var s := repo.Contents();
    for id := 0 to |repo.refresh|
      invariant ListsRowsBelow(s, user, out, id)
    {
      var row := repo.refresh[id];
      if row.userId == user && row.revokedAt.None? && row.expiresAt > repo.now {
        var p := 0;
        while p < |out| && ListedBefore(repo.refresh[out[p]], row)
          invariant p <= |out|
          invariant forall k :: 0 <= k < p ==> ListedBefore(s.refresh[out[k]], row)
        {
          p := p + 1;
        }
        InsertedKeepsListing(s, user, out, id, p);
        out := Inserted(out, p, id);
      }
    }
  }

  /** In every reachable state a token is listed exactly when presenting its
      secret to refresh at that instant would be answered with new tokens. */
  lemma ListingAgreesWithRefresh(cfg: Config, s: Store, user: UserId, listing: seq<TokenId>, id: TokenId, minted: Secret, client: Client)
    requires Inv(s) && IsListing(s, user, listing) && id < |s.refresh|
    ensures id in listing <==>
      (s.refresh[id].userId == user && RefreshTokens(cfg, s, s.refresh[id].tokenHash.secret, minted, client).1.SignedIn?)
  {
    assert FindRefresh(s.refresh, HashToken(s.refresh[id].tokenHash.secret)) == Some(id);
    assert id in listing <==> Active(s, user, id);
  }

  /** Listings are determined up to ties, so equal row sets give equal listings. */
  predicate SameSessions(s: Store, t: Store, user: UserId) {
    && |s.refresh| <= |t.refresh| && t.now == s.now
    && (forall id :: 0 <= id < |s.refresh| && s.refresh[id].userId == user ==> t.refresh[id] == s.refresh[id])
    && (forall id :: 0 <= id < |s.refresh| ==> t.refresh[id].userId == s.refresh[id].userId)
    && (forall id :: |s.refresh| <= id < |t.refresh| ==> t.refresh[id].userId != user)
  }

  lemma SameSessionsSameListing(s: Store, t: Store, user: UserId, listing: seq<TokenId>)
    requires SameSessions(s, t, user)
    ensures IsListing(s, user, listing) <==> IsListing(t, user, listing)
  {
    assert forall id: TokenId :: Active(s, user, id) <==> Active(t, user, id);
  }

  /** The user whose tokens a call may create, touch or revoke. */
  function Acts(s: Store, call: Call): Option<UserId> {
    match call
    case Register(_, _, _, _) => Some(|s.users|)
    case Login(email, _, _, _) => FindUser(s.users, email)
    case OAuth(sub, email, verified, _, client) => ResolveOAuth(s, sub, email, verified, client).1
    case Refresh(presented, _, _) => Owner(s, presented)
    case Logout(presented, _) => Owner(s, presented)
    case RevokeOthers(caller, presented, _) => Some(caller)
    case ResetPassword(presented, _) =>
      var redeemed := Redeemable(s, presented, PasswordResetToken);
      if redeemed.Some? then s.oneTime[redeemed.value].userId else None
    case _ => None
  }

  function Owner(s: Store, presented: Secret): Option<UserId> {
    var found := FindRefresh(s.refresh, HashToken(presented));
    if found.Some? then Some(s.refresh[found.value].userId) else None
  }

  lemma SignInsSpareOthers(cfg: Config, s: Store, call: Call, other: UserId)
    requires call.Register? || call.Login? || call.OAuth?
    requires Acts(s, call) != Some(other)
    ensures SameSessions(s, Step(cfg, s, call).0, other)
  {
    match call
    case Register(_, _, _, _) =>
    case Login(email, password, _, client) =>
      var _ := Authenticate(cfg, s, email, password, client);
    case OAuth(sub, email, verified, _, client) =>
      var _ := ResolveOAuth(s, sub, email, verified, client);
  }

  lemma RefreshSparesOthers(cfg: Config, s: Store, call: Call, other: UserId)
    requires call.Refresh? && Acts(s, call) != Some(other)
    ensures SameSessions(s, Step(cfg, s, call).0, other)
  {
  }

  lemma RevocationsSpareOthers(cfg: Config, s: Store, call: Call, other: UserId)
    requires call.Logout? || call.RevokeOthers? || call.ResetPassword?
    requires Acts(s, call) != Some(other)
    ensures SameSessions(s, Step(cfg, s, call).0, other)
  {
    match call
    case Logout(_, _) =>
    case RevokeOthers(_, _, _) =>
    case ResetPassword(_, _) =>
  }

  /** No call changes the listing of a user it does not act for. */
  lemma OthersListingsNeverChange(cfg: Config, s: Store, call: Call, other: UserId, listing: seq<TokenId>)
    requires Acts(s, call) != Some(other)
    ensures IsListing(s, other, listing) <==> IsListing(Step(cfg, s, call).0, other, listing)
  {
    match call {
      case Register(_, _, _, _) => SignInsSpareOthers(cfg, s, call, other);
      case Login(_, _, _, _) => SignInsSpareOthers(cfg, s, call, other);
      case OAuth(_, _, _, _, _) => SignInsSpareOthers(cfg, s, call, other);
      case Refresh(_, _, _) => RefreshSparesOthers(cfg, s, call, other);
      case Logout(_, _) => RevocationsSpareOthers(cfg, s, call, other);
      case RevokeOthers(_, _, _) => RevocationsSpareOthers(cfg, s, call, other);
      case ResetPassword(_, _) => RevocationsSpareOthers(cfg, s, call, other);
      case IssueVerifyEmail(_, _, _) =>
      case VerifyEmail(_) =>
      case IssuePasswordReset(_, _, _) =>
      case ChangeEmail(_, _, _, _) =>
    }
    SameSessionsSameListing(s, Step(cfg, s, call).0, other, listing);
  }

  lemma TwoEntriesDiffer(listing: seq<TokenId>)
    requires |listing| > 1 && forall j, k :: 0 <= j < k < |listing| ==> listing[j] != listing[k]
    ensures listing[0] != listing[1]
  {
  }

  /** A listing of at most one possible row. */
  lemma ListingOfAtMostOne(s: Store, user: UserId, listing: seq<TokenId>, kept: TokenId)
    requires IsListing(s, user, listing)
    requires forall id: TokenId :: Active(s, user, id) ==> id == kept
    ensures listing == if Active(s, user, kept) then [kept] else []
  {
    forall k | 0 <= k < |listing| ensures listing[k] == kept && Active(s, user, kept) {
      assert listing[k] in listing;
    }
    assert Active(s, user, kept) ==> kept in listing;
    if |listing| > 1 {
      TwoEntriesDiffer(listing);
      assert false;
    }
    assert |listing| > 0 ==> listing[0] == kept && Active(s, user, kept);
  }

  /** A password reset signs its user out everywhere. */
  lemma ResetEmptiesTheListing(cfg: Config, s: Store, call: Call, listing: seq<TokenId>)
    requires call.ResetPassword? && Step(cfg, s, call).1.Done?
    requires IsListing(Step(cfg, s, call).0, Step(cfg, s, call).1.user, listing)
    ensures listing == []
  {
    ListingOfAtMostOne(Step(cfg, s, call).0, Step(cfg, s, call).1.user, listing, 0);
  }

  /** Revoke-others leaves the kept token alone and nothing else, and keeps it
      only if it was listed before. */
  lemma RevokeOthersKeepsAtMostOne(cfg: Config, s: Store, call: Call, before: seq<TokenId>, after: seq<TokenId>)
    requires Inv(s) && call.RevokeOthers? && Step(cfg, s, call).1.NoContent?
    requires IsListing(s, call.caller, before) && IsListing(Step(cfg, s, call).0, call.caller, after)
    ensures FindRefresh(s.refresh, HashToken(call.presented)).Some?
    ensures var kept := FindRefresh(s.refresh, HashToken(call.presented)).value;
      after == if kept in before then [kept] else []
  {
    var t := Step(cfg, s, call).0;
    var kept := FindRefresh(s.refresh, HashToken(call.presented)).value;
    assert kept in before <==> Active(s, call.caller, kept);
    ListingOfAtMostOne(t, call.caller, after, kept);
  }
}
