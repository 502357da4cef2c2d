/**
 Refresh tokens: issued at login, rotated by `rotateRefreshToken`, retired at
 logout. Each operation is one step; the table is keyed by token hash, which
 the database keeps unique.
 */
module Refresh {
  import opened Text

  datatype Token = Token(userId: Text, expiresAt: int, used: bool)

  type Tokens = map<Text, Token>

  /** `findRefreshTokenByHash`: unused and not expired. */
  predicate IsRedeemable(ts: Tokens, hash: Text, now: int) {
    hash in ts && !ts[hash].used && ts[hash].expiresAt > now
  }

  datatype Step =
    /** A session starts; the insert fails if the hash exists. */
    | Login(userId: Text, hash: Text, expiresAt: int)
    /** `rotateRefreshToken` with the user's presence and the new token it drew. */
    | Rotate(hash: Text, now: int, userFound: bool, newHash: Text, expiresAt: int)
    | Logout(hash: Text)

  /** The rotation goes through: otherwise it throws and its transaction leaves nothing. */
  predicate Rotates(ts: Tokens, step: Step) {
    step.Rotate? && IsRedeemable(ts, step.hash, step.now) && step.userFound && step.newHash !in ts
  }

  function MarkUsed(ts: Tokens, hash: Text): Tokens {
    if hash in ts then ts[hash := ts[hash].(used := true)] else ts
  }

  function AfterStep(ts: Tokens, step: Step): Tokens {
    match step
    case Login(user, hash, expiresAt) => if hash in ts then ts else ts[hash := Token(user, expiresAt, false)]
    case Rotate(hash, now, _, newHash, expiresAt) =>
      if Rotates(ts, step) then MarkUsed(ts, hash)[newHash := Token(ts[hash].userId, expiresAt, false)] else ts
    case Logout(hash) => MarkUsed(ts, hash)
  }

  class RefreshTokenStore {
    var tokens: Tokens

    constructor ()
      ensures tokens == map[]
    {
      tokens := map[];
    }

    method InsertRefreshToken(userId: Text, hash: Text, expiresAt: int) returns (saved: bool)
      modifies this
      ensures saved <==> hash !in old(tokens)
      ensures tokens == AfterStep(old(tokens), Login(userId, hash, expiresAt))
    {
      saved := hash !in tokens;
      if saved {
        tokens := tokens[hash := Token(userId, expiresAt, false)];
      }
    }

    method MarkRefreshTokenUsedByHash(hash: Text)
      modifies this
      ensures tokens == AfterStep(old(tokens), Logout(hash))
    {
      if hash in tokens && !tokens[hash].used {
        tokens := tokens[hash := tokens[hash].(used := true)];
      }
    }

    /** Marks the inbound token used and inserts its successor, both or neither. */
    method RotateRefreshToken(hash: Text, now: int, userFound: bool, newHash: Text, expiresAt: int)
      returns (rotated: bool)
      modifies this
      ensures rotated <==> Rotates(old(tokens), Rotate(hash, now, userFound, newHash, expiresAt))
      ensures tokens == AfterStep(old(tokens), Rotate(hash, now, userFound, newHash, expiresAt))
    {
      if !IsRedeemable(tokens, hash, now) || !userFound {
        return false;
      }
      var before := tokens;
      tokens := tokens[hash := tokens[hash].(used := true)];
      if newHash in tokens {
        tokens := before;
        return false;
      }
      tokens := tokens[newHash := Token(tokens[hash].userId, expiresAt, false)];
      rotated := true;
    }
  }

  // ---------------------------------------------------------------------------
  // Lineages
  // ---------------------------------------------------------------------------

  /**
   The table with its past: for each login the tokens that descend from it in
   order, the login each token belongs to, the token each successor was rotated
   from, and the hashes redeemed so far.
   */
  datatype Store = Store(
    tokens: Tokens,
    chains: map<Text, seq<Text>>,
    rootOf: map<Text, Text>,
    parentOf: map<Text, Text>,
    redeemed: multiset<Text>)

  const EMPTY := Store(map[], map[], map[], map[], multiset{})

  function Next(s: Store, step: Step): Store {
    var ts := AfterStep(s.tokens, step);
    match step
    case Login(_, hash, _) =>
      if hash in s.tokens then s
      else Store(ts, s.chains[hash := [hash]], s.rootOf[hash := hash], s.parentOf, s.redeemed)
    case Rotate(hash, _, _, newHash, _) =>
      if Rotates(s.tokens, step) && hash in s.rootOf && s.rootOf[hash] in s.chains then
        var root := s.rootOf[hash];
        Store(ts, s.chains[root := s.chains[root] + [newHash]], s.rootOf[newHash := root],
              s.parentOf[newHash := hash], s.redeemed + multiset{hash})
      else s.(tokens := ts)
    case Logout(_) => s.(tokens := ts)
  }

  function Run(steps: seq<Step>): Store {
    if steps == [] then EMPTY else Next(Run(steps[..|steps| - 1]), steps[|steps| - 1])
  }

  /** The tokens of a login, oldest first: only the last may be unused. */
  ghost predicate IsChain(s: Store, root: Text) {
    root in s.chains
    && var c := s.chains[root];
       && c != [] && c[0] == root
       && (forall i :: 0 <= i < |c| ==> c[i] in s.tokens && c[i] in s.rootOf && s.rootOf[c[i]] == root)
       && (forall i, j :: 0 <= i < j < |c| ==> c[i] != c[j])
       && (forall i :: 0 <= i < |c| - 1 ==> s.tokens[c[i]].used)
  }

  ghost predicate Inv(s: Store) {
    && (forall root | root in s.chains :: IsChain(s, root))
    && (forall h | h in s.tokens :: h in s.rootOf && s.rootOf[h] in s.chains && h in s.chains[s.rootOf[h]])
    && (forall h :: s.redeemed[h] <= 1)
    && (forall h :: h in s.redeemed ==> h in s.tokens && s.tokens[h].used)
  }

  /** A redeemable token is the last of its chain. */
  lemma UnusedIsLast(s: Store, hash: Text)
    requires Inv(s) && hash in s.tokens && !s.tokens[hash].used
    ensures hash in s.rootOf && s.rootOf[hash] in s.chains
    ensures var c := s.chains[s.rootOf[hash]]; c != [] && c[|c| - 1] == hash
  {
    assert IsChain(s, s.rootOf[hash]);
  }

  lemma ChainKept(s: Store, s': Store, root: Text)
    requires IsChain(s, root) && root in s'.chains && s'.chains[root] == s.chains[root]
    requires forall h | h in s.tokens :: h in s'.tokens && (s.tokens[h].used ==> s'.tokens[h].used)
    requires forall h | h in s.rootOf && h in s.tokens :: h in s'.rootOf && s'.rootOf[h] == s.rootOf[h]
    ensures IsChain(s', root)
  {
  }

  lemma LoginKeepsChains(s: Store, step: Step, root: Text)
    requires Inv(s) && step.Login? && step.hash !in s.tokens && root in Next(s, step).chains
    ensures IsChain(Next(s, step), root)
  {
    if root == step.hash {
      assert Next(s, step).chains[root] == [root];
    } else {
      ChainKept(s, Next(s, step), root);
    }
  }

  lemma LoginKeeps(s: Store, step: Step)
    requires Inv(s) && step.Login?
    ensures Inv(Next(s, step))
  {
    if step.hash !in s.tokens {
      var s', hash := Next(s, step), step.hash;
      assert hash !in s.chains by {
        assert hash in s.chains ==> IsChain(s, hash);
      }
      forall root | root in s'.chains ensures IsChain(s', root) {
        LoginKeepsChains(s, step, root);
      }
      forall h | h in s'.tokens
        ensures h in s'.rootOf && s'.rootOf[h] in s'.chains && h in s'.chains[s'.rootOf[h]]
      {
        assert h != hash ==> h in s.tokens;
      }
    }
  }

  lemma LogoutKeeps(s: Store, step: Step)
    requires Inv(s) && step.Logout?
    ensures Inv(Next(s, step))
  {
    var s' := Next(s, step);
    forall root | root in s'.chains ensures IsChain(s', root) {
      assert IsChain(s, root);
    }
  }

  lemma FreshHashNotInChain(s: Store, root: Text, h: Text)
    requires IsChain(s, root) && h !in s.tokens
    ensures h !in s.chains[root]
  {
  }

  lemma OtherChainKept(s: Store, step: Step, root: Text)
    requires Inv(s) && Rotates(s.tokens, step) && root in s.chains
    requires step.hash in s.rootOf && s.rootOf[step.hash] in s.chains && root != s.rootOf[step.hash]
    ensures IsChain(Next(s, step), root)
  {
    assert IsChain(s, root);
    FreshHashNotInChain(s, root, step.newHash);
  }

  lemma OwnChainGrows(s: Store, step: Step, root: Text)
    requires Inv(s) && Rotates(s.tokens, step) && root in s.chains
    requires step.hash in s.rootOf && root == s.rootOf[step.hash]
    ensures IsChain(Next(s, step), root)
  {
    assert IsChain(s, root);
    UnusedIsLast(s, step.hash);
    FreshHashNotInChain(s, root, step.newHash);
    var c, s' := s.chains[root], Next(s, step);
    assert s'.chains[root] == c + [step.newHash];
  }

  lemma RotatedChain(s: Store, step: Step, root: Text)
    requires Inv(s) && Rotates(s.tokens, step) && root in s.chains
    ensures IsChain(Next(s, step), root)
  {
    UnusedIsLast(s, step.hash);
    if root == s.rootOf[step.hash] {
      OwnChainGrows(s, step, root);
    } else {
      OtherChainKept(s, step, root);
    }
  }

  lemma RotatedMember(s: Store, step: Step, h: Text)
    requires Inv(s) && Rotates(s.tokens, step) && h in Next(s, step).tokens
    ensures var s' := Next(s, step); h in s'.rootOf && s'.rootOf[h] in s'.chains && h in s'.chains[s'.rootOf[h]]
  {
    UnusedIsLast(s, step.hash);
    var root := s.rootOf[step.hash];
    var c := s.chains[root];
    assert Next(s, step).chains[root] == c + [step.newHash];
    if h == step.newHash {
      assert (c + [h])[|c|] == h;
    } else {
      assert h in s.tokens;
    }
  }

  lemma RotateKeeps(s: Store, step: Step)
    requires Inv(s) && step.Rotate?
    ensures Inv(Next(s, step))
  {
    if Rotates(s.tokens, step) {
      var s' := Next(s, step);
      UnusedIsLast(s, step.hash);
      forall root | root in s'.chains ensures IsChain(s', root) {
        RotatedChain(s, step, root);
      }
      forall h | h in s'.tokens
        ensures h in s'.rootOf && s'.rootOf[h] in s'.chains && h in s'.chains[s'.rootOf[h]]
      {
        RotatedMember(s, step, h);
      }
    }
  }

  lemma {:induction false} RunKeepsInv(steps: seq<Step>)
    ensures Inv(Run(steps))
  {
    if steps != [] {
      RunKeepsInv(steps[..|steps| - 1]);
      var s, step := Run(steps[..|steps| - 1]), steps[|steps| - 1];
      match step
      case Login(_, _, _) => LoginKeeps(s, step);
      case Rotate(_, _, _, _, _) => RotateKeeps(s, step);
      case Logout(_) => LogoutKeeps(s, step);
    }
  }

  // ---------------------------------------------------------------------------
  // Descent
  // ---------------------------------------------------------------------------

  /** The first token was not rotated from any, each later one from the one before it. */
  predicate Descends(parentOf: map<Text, Text>, c: seq<Text>) {
    var last := |c| - 1;
    c != []
    && if last == 0 then c[0] !in parentOf
       else Descends(parentOf, c[..last]) && c[last] in parentOf && parentOf[c[last]] == c[last - 1]
  }

  lemma {:induction false} DescendsAt(parentOf: map<Text, Text>, c: seq<Text>, i: nat)
    requires Descends(parentOf, c) && i < |c|
    ensures i == 0 ==> c[i] !in parentOf
    ensures i > 0 ==> c[i] in parentOf && parentOf[c[i]] == c[i - 1]
  {
    if i < |c| - 1 {
      DescendsAt(parentOf, c[..|c| - 1], i);
    }
  }

  /** A new token is nobody's parent yet. */
  lemma {:induction false} DescendsStill(parentOf: map<Text, Text>, c: seq<Text>, child: Text, parent: Text)
    requires Descends(parentOf, c) && child !in c
    ensures Descends(parentOf[child := parent], c)
  {
    if |c| > 1 {
      DescendsStill(parentOf, c[..|c| - 1], child, parent);
    }
  }

  /** A token rotated from the last of a chain goes on with it. */
  lemma DescendsFurther(parentOf: map<Text, Text>, c: seq<Text>, child: Text)
    requires Descends(parentOf, c) && child !in c
    ensures Descends(parentOf[child := c[|c| - 1]], c + [child])
  {
    DescendsStill(parentOf, c, child, c[|c| - 1]);
    assert (c + [child])[..|c|] == c;
  }

  ghost predicate Descent(s: Store) {
    && s.parentOf.Keys <= s.tokens.Keys
    && forall root | root in s.chains :: Descends(s.parentOf, s.chains[root])
  }

  lemma RotateKeepsDescent(s: Store, step: Step)
    requires Inv(s) && Descent(s) && Rotates(s.tokens, step)
    ensures Descent(Next(s, step))
  {
    UnusedIsLast(s, step.hash);
    var own, s' := s.rootOf[step.hash], Next(s, step);
    forall root | root in s'.chains ensures Descends(s'.parentOf, s'.chains[root]) {
      FreshHashNotInChain(s, root, step.newHash);
      if root == own {
        DescendsFurther(s.parentOf, s.chains[own], step.newHash);
      } else {
        DescendsStill(s.parentOf, s.chains[root], step.newHash, step.hash);
      }
    }
  }

  lemma StepKeepsDescent(s: Store, step: Step)
    requires Inv(s) && Descent(s)
    ensures Descent(Next(s, step))
  {
    if Rotates(s.tokens, step) {
      RotateKeepsDescent(s, step);
    } else if step.Login? && step.hash !in s.tokens {
      var s' := Next(s, step);
      forall root | root in s'.chains ensures Descends(s'.parentOf, s'.chains[root]) {
        assert root != step.hash ==> s'.chains[root] == s.chains[root];
      }
    }
  }

  lemma {:induction false} RunKeepsDescent(steps: seq<Step>)
    ensures Descent(Run(steps))
  {
    if steps != [] {
      RunKeepsDescent(steps[..|steps| - 1]);
      RunKeepsInv(steps[..|steps| - 1]);
      var s, step := Run(steps[..|steps| - 1]), steps[|steps| - 1];
      StepKeepsDescent(s, step);
    }
  }

  /**
   Over any run: the tokens of a login form a chain in which each was issued by
   rotating the one before it and at most the last is unused; every token
   belongs to exactly one chain, and none is redeemed twice.
   */
  lemma Lineage(steps: seq<Step>, root: Text, i: nat, hash: Text)
    ensures var s := Run(steps);
            && (root in s.chains && i < |s.chains[root]| - 1 ==>
                  s.chains[root][i] in s.tokens && s.tokens[s.chains[root][i]].used)
            && (root in s.chains ==> s.chains[root] != [] && s.chains[root][0] == root && root !in s.parentOf)
            && (root in s.chains && 0 < i < |s.chains[root]| ==>
                  s.chains[root][i] in s.parentOf && s.parentOf[s.chains[root][i]] == s.chains[root][i - 1])
            && (hash in s.tokens ==> hash in s.rootOf && s.rootOf[hash] in s.chains && hash in s.chains[s.rootOf[hash]])
            && (root in s.chains && hash in s.chains[root] ==> hash in s.rootOf && s.rootOf[hash] == root)
            && s.redeemed[hash] <= 1
  {
    RunKeepsInv(steps);
    RunKeepsDescent(steps);
    var s := Run(steps);
    if root in s.chains {
      assert IsChain(s, root);
      DescendsAt(s.parentOf, s.chains[root], 0);
      if i < |s.chains[root]| {
        DescendsAt(s.parentOf, s.chains[root], i);
      }
    }
  }

  /** A token that has been redeemed can never be redeemed again. */
  lemma RedeemedOnce(steps: seq<Step>, step: Step)
    requires Rotates(Run(steps).tokens, step)
    ensures step.hash !in Run(steps).redeemed
    ensures step.hash in Run(steps + [step]).redeemed
  {
    RunKeepsInv(steps);
    UnusedIsLast(Run(steps), step.hash);
    assert (steps + [step])[..|steps|] == steps;
  }

  // ---------------------------------------------------------------------------
  // Conservation
  // ---------------------------------------------------------------------------

  function Unused(ts: Tokens): set<Text> {
    set h | h in ts && !ts[h].used
  }

  lemma LoginAddsUnused(ts: Tokens, step: Step)
    requires step.Login?
    ensures |Unused(AfterStep(ts, step))| == |Unused(ts)| + (if step.hash in ts then 0 else 1)
  {
    if step.hash !in ts {
      assert Unused(AfterStep(ts, step)) == Unused(ts) + {step.hash};
    }
  }

  lemma LogoutRemovesUnused(ts: Tokens, step: Step)
    requires step.Logout?
    ensures |Unused(AfterStep(ts, step))| == |Unused(ts)| - (if step.hash in Unused(ts) then 1 else 0)
  {
    assert Unused(AfterStep(ts, step)) == Unused(ts) - {step.hash};
  }

  lemma RotationSwapsUnused(ts: Tokens, step: Step)
    requires step.Rotate?
    ensures |Unused(AfterStep(ts, step))| == |Unused(ts)|
  {
    if Rotates(ts, step) {
      var kept := Unused(ts) - {step.hash};
      assert step.hash in Unused(ts) && step.newHash !in kept;
      assert Unused(AfterStep(ts, step)) == kept + {step.newHash};
    }
  }

  /** A rotation swaps one live token for another; only a login adds one, only a logout removes one. */
  lemma UnusedConserved(ts: Tokens, step: Step)
    ensures var after := |Unused(AfterStep(ts, step))|;
            && (step.Rotate? ==> after == |Unused(ts)|)
            && (step.Login? ==> after == |Unused(ts)| + (if step.hash in ts then 0 else 1))
            && (step.Logout? ==> after == |Unused(ts)| - (if step.hash in Unused(ts) then 1 else 0))
  {
    match step
    case Login(_, _, _) => LoginAddsUnused(ts, step);
    case Rotate(_, _, _, _, _) => RotationSwapsUnused(ts, step);
    case Logout(_) => LogoutRemovesUnused(ts, step);
  }

  // ---------------------------------------------------------------------------
  // Which tokens are redeemed, and for whom
  // ---------------------------------------------------------------------------

  /** What a step does to the table, row by row. */
  lemma StepMeaning(ts: Tokens, step: Step, other: Text)
    ensures step.Rotate? ==>
              (Rotates(ts, step) <==>
                && step.hash in ts && !ts[step.hash].used && step.now < ts[step.hash].expiresAt
                && step.userFound && step.newHash !in ts)
    ensures var after := AfterStep(ts, step);
            && (other in ts ==>
                  && other in after && after[other].userId == ts[other].userId
                  && after[other].expiresAt == ts[other].expiresAt
                  && (after[other].used <==>
                        || ts[other].used
                        || (step.Logout? && step.hash == other) || (Rotates(ts, step) && step.hash == other)))
            && (other in after && other !in ts ==>
                  && !after[other].used
                  && ((step.Login? && step.hash == other) || (Rotates(ts, step) && step.newHash == other))
                  && after[other].expiresAt == step.expiresAt
                  && after[other].userId == if step.Login? then step.userId else ts[step.hash].userId)
            && (step.Login? ==> step.hash in after)
            && (Rotates(ts, step) ==> step.newHash in after)
  {
  }

  /** The step that put a token into the table, with its expiry. */
  predicate Issues(ts: Tokens, step: Step, hash: Text, expiresAt: int) {
    && hash !in ts
    && ((step.Login? && step.hash == hash && step.expiresAt == expiresAt)
        || (Rotates(ts, step) && step.newHash == hash && step.expiresAt == expiresAt))
  }

  ghost predicate WasIssued(steps: seq<Step>, hash: Text, expiresAt: int) {
    exists i :: 0 <= i < |steps| && Issues(Run(steps[..i]).tokens, steps[i], hash, expiresAt)
  }

  lemma {:induction false} TokensWereIssued(steps: seq<Step>, hash: Text)
    requires hash in Run(steps).tokens
    ensures WasIssued(steps, hash, Run(steps).tokens[hash].expiresAt)
  {
    if steps != [] {
      var n := |steps| - 1;
      var before := Run(steps[..n]).tokens;
      TableAfter(Run(steps[..n]), steps[n]);
      StepMeaning(before, steps[n], hash);
      if hash in before {
        TokensWereIssued(steps[..n], hash);
        var e := before[hash].expiresAt;
        var i :| 0 <= i < n && Issues(Run(steps[..n][..i]).tokens, steps[..n][i], hash, e);
        assert steps[..n][..i] == steps[..i];
      } else {
        assert Issues(before, steps[n], hash, Run(steps).tokens[hash].expiresAt);
      }
    }
  }

  lemma TableAfter(s: Store, step: Step)
    ensures Next(s, step).tokens == AfterStep(s.tokens, step)
  {
  }

  /** A redeemed token was issued earlier in the run and has not reached the expiry it was issued with. */
  lemma RedeemedInTime(steps: seq<Step>, step: Step)
    requires Rotates(Run(steps).tokens, step)
    ensures exists e :: step.now < e && WasIssued(steps, step.hash, e)
  {
    TokensWereIssued(steps, step.hash);
  }

  /** All the tokens of a login belong to the user who logged in. */
  ghost predicate SameUser(s: Store) {
    forall h | h in s.tokens ::
      h in s.rootOf && s.rootOf[h] in s.tokens && s.tokens[h].userId == s.tokens[s.rootOf[h]].userId
  }

  /** Whose descendant a token is after a step. */
  lemma RootsAfter(s: Store, step: Step, h: Text)
    requires Inv(s) && h in Next(s, step).tokens
    ensures h in s.tokens ==> h in s.rootOf && h in Next(s, step).rootOf && Next(s, step).rootOf[h] == s.rootOf[h]
    ensures h !in s.tokens && step.Login? ==> h in Next(s, step).rootOf && Next(s, step).rootOf[h] == h
    ensures h !in s.tokens && step.Rotate? ==>
              && Rotates(s.tokens, step) && step.hash in s.rootOf
              && h in Next(s, step).rootOf && Next(s, step).rootOf[h] == s.rootOf[step.hash]
  {
    if Rotates(s.tokens, step) {
      UnusedIsLast(s, step.hash);
    }
  }

  lemma TokenKeepsUser(s: Store, step: Step, h: Text)
    requires Inv(s) && SameUser(s) && h in Next(s, step).tokens
    ensures var s' := Next(s, step);
            h in s'.rootOf && s'.rootOf[h] in s'.tokens && s'.tokens[h].userId == s'.tokens[s'.rootOf[h]].userId
  {
    RootsAfter(s, step, h);
    TableAfter(s, step);
    StepMeaning(s.tokens, step, h);
    if h in s.tokens {
      StepMeaning(s.tokens, step, s.rootOf[h]);
    } else if step.Rotate? {
      StepMeaning(s.tokens, step, s.rootOf[step.hash]);
    }
  }

  lemma StepKeepsUser(s: Store, step: Step)
    requires Inv(s) && SameUser(s)
    ensures SameUser(Next(s, step))
  {
    forall h | h in Next(s, step).tokens
      ensures var s' := Next(s, step);
              h in s'.rootOf && s'.rootOf[h] in s'.tokens && s'.tokens[h].userId == s'.tokens[s'.rootOf[h]].userId
    {
      TokenKeepsUser(s, step, h);
    }
  }

  lemma {:induction false} RunKeepsUser(steps: seq<Step>)
    ensures SameUser(Run(steps))
  {
    if steps != [] {
      RunKeepsUser(steps[..|steps| - 1]);
      RunKeepsInv(steps[..|steps| - 1]);
      StepKeepsUser(Run(steps[..|steps| - 1]), steps[|steps| - 1]);
    }
  }
}
