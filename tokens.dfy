// UserTokens: the set of JWT tokens a user currently holds. The set may
// be unset (as loaded from the store) and is created empty on first use.
module Tokens {
  import opened Common

  /** The set after a token is saved: the token is in, nothing else changes. */
  function Saved(tokens: set<string>, token: string): (r: set<string>)
    ensures token in r && tokens <= r && r - {token} <= tokens
  {
    tokens + {token}
  }

  /** The set after a token is removed: the token is out, nothing else changes. */
  function Removed(tokens: set<string>, token: string): (r: set<string>)
    ensures token !in r && r <= tokens && tokens - r <= {token}
  {
    tokens - {token}
  }

  /**
   * The set after `oldToken` is replaced by `newToken`: the new token is
   * in, the old one out unless it is the new one, every other token as it
   * was.
   */
  function Replaced(tokens: set<string>, oldToken: string, newToken: string): (r: set<string>)
    ensures newToken in r
    ensures oldToken != newToken ==> oldToken !in r
    ensures forall t :: t != oldToken && t != newToken ==> (t in r <==> t in tokens)
  {
    Saved(Removed(tokens, oldToken), newToken)
  }

  /**
   * Saving, removing and replacing are idempotent, and a token saved and
   * then removed leaves the tokens as they were when it was not held before.
   */
  lemma TokenLaws(tokens: set<string>, token: string, oldToken: string, newToken: string)
    ensures Saved(Saved(tokens, token), token) == Saved(tokens, token)
    ensures Removed(Removed(tokens, token), token) == Removed(tokens, token)
    ensures Replaced(Replaced(tokens, oldToken, newToken), oldToken, newToken) == Replaced(tokens, oldToken, newToken)
    ensures token !in tokens ==> Removed(Saved(tokens, token), token) == tokens
  {
  }

  class UserTokens {
    var id: Option<Uuid>
    var userId: Option<Uuid>
    var savedTokens: Option<set<string>>

    /** The tokens as `getSavedTokens` sees them: an unset set is empty. */
    function Tokens(): set<string>
      reads this`savedTokens
    {
      GetOrDefault(savedTokens, {})
    }

    constructor ()
      ensures id.None? && userId.None? && savedTokens.None?
    {
      id, userId, savedTokens := None, None, None;
    }

    method Id(newId: Option<Uuid>) returns (self: UserTokens)
      modifies this`id
      ensures self == this && id == newId
    {
      id := newId;
      self := this;
    }

    method UserId(newUserId: Option<Uuid>) returns (self: UserTokens)
      modifies this`userId
      ensures self == this && userId == newUserId
    {
      userId := newUserId;
      self := this;
    }

    /** getSavedTokens: never null; an unset set is created empty and kept. */
    method GetSavedTokens() returns (tokens: set<string>)
      modifies this`savedTokens
      ensures savedTokens == Some(old(Tokens())) && tokens == old(Tokens())
    {
      if savedTokens.None? {
        savedTokens := Some({});
      }
      tokens := savedTokens.value;
    }

    method SaveToken(token: string) returns (self: UserTokens)
      modifies this`savedTokens
      ensures self == this && savedTokens == Some(Saved(old(Tokens()), token))
    {
      var tokens := GetSavedTokens();
      savedTokens := Some(tokens + {token});
      self := this;
    }

    method ReplaceToken(oldToken: string, newToken: string) returns (self: UserTokens)
      modifies this`savedTokens
      ensures self == this && savedTokens == Some(Replaced(old(Tokens()), oldToken, newToken))
    {
      var tokens := GetSavedTokens();
      savedTokens := Some(tokens - {oldToken});
      tokens := GetSavedTokens();
      savedTokens := Some(tokens + {newToken});
      self := this;
    }

    method RemoveToken(token: string) returns (self: UserTokens)
      modifies this`savedTokens
      ensures self == this && savedTokens == Some(Removed(old(Tokens()), token))
    {
      var tokens := GetSavedTokens();
      savedTokens := Some(tokens - {token});
      self := this;
    }
  }
}
