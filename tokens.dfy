/** Bulk revocation of a principal's tokens, shared by the logout-all
    handlers (src/Controller/AuthController.php, MailboxController.php,
    UserController.php): find every token of the owner, count them, remove
    them one by one. */
module TokenRevocation {

  /** The tokens of one owner in a token table. */
  function TokensOf(tokens: map<string, int>, owner: int): (owned: set<string>)
    ensures forall t :: t in owned <==> t in tokens && tokens[t] == owner
  {
    set t | t in tokens && tokens[t] == owner
  }

  /** The token table once the owner's tokens are gone; every other owner's
      tokens are kept as they were. */
  function Without(tokens: map<string, int>, owner: int): (kept: map<string, int>)
    ensures forall t :: t in kept <==> t in tokens && tokens[t] != owner
    ensures forall t | t in kept :: kept[t] == tokens[t]
  {
    map t | t in tokens && tokens[t] != owner :: tokens[t]
  }

  /** The revoked tokens and the kept ones split the table: the reported
      count is exactly the number of rows that disappear. */
  lemma {:induction false} RevocationPartitions(tokens: map<string, int>, owner: int)
    ensures |tokens| == |Without(tokens, owner)| + |TokensOf(tokens, owner)|
  {
    var kept := Without(tokens, owner).Keys;
    var gone := TokensOf(tokens, owner);
    assert tokens.Keys == kept + gone;
    assert kept * gone == {};
    assert |tokens.Keys| == |kept| + |gone|;
  }

  /** Revoking twice is revoking once. */
  lemma RevocationIdempotent(tokens: map<string, int>, owner: int)
    ensures Without(Without(tokens, owner), owner) == Without(tokens, owner)
    ensures TokensOf(Without(tokens, owner), owner) == {}
  {
  }

  /** `findBy([owner])`, `count`, then `remove` each in a loop. */
  method RevokeAll(tokens: map<string, int>, owner: int) returns (remaining: map<string, int>, count: nat)
    ensures remaining == Without(tokens, owner)
    ensures count == |TokensOf(tokens, owner)|
    ensures count == |tokens| - |remaining|
  {
    var found := TokensOf(tokens, owner);
    count := |found|;
    remaining := tokens;
    var pending := found;
    while pending != {}
      invariant pending <= found
      invariant forall t :: t in remaining <==> (t in tokens && tokens[t] != owner) || t in pending
      invariant forall t | t in remaining :: remaining[t] == tokens[t]
      decreases |pending|
    {
      var t :| t in pending;
      remaining := remaining - {t};
      pending := pending - {t};
    }
    assert remaining.Keys == Without(tokens, owner).Keys;
    RevocationPartitions(tokens, owner);
  }

  /** The token table once the owners in `owners` are deleted: the
      `ON DELETE CASCADE` of the owner foreign key removes their tokens. */
  function WithoutOwners(tokens: map<string, int>, owners: set<int>): (kept: map<string, int>)
    ensures forall t :: t in kept <==> t in tokens && tokens[t] !in owners
    ensures forall t | t in kept :: kept[t] == tokens[t]
  {
    map t | t in tokens && tokens[t] !in owners :: tokens[t]
  }

  /** Deleting one owner is revoking all of that owner's tokens. */
  lemma DeletingOneOwnerRevokes(tokens: map<string, int>, owner: int)
    ensures WithoutOwners(tokens, {owner}) == Without(tokens, owner)
  {
  }
}
