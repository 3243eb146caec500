/** One refresh of a stored credential (auth-codex and auth-grok `perform_refresh`, tokens.rs). */
module Credentials {
  import opened Basics

  datatype Mode = IfStale | Force

  datatype Tokens = Tokens(
    access: string, refresh: Option<string>, account: Option<string>, issuer: Option<string>, expiresAt: Option<int>)

  /** What the issuer grants; it may leave the refresh token out. */
  datatype Grant = Grant(access: string, refresh: Option<string>, expiresAt: Option<int>)

  function IntoTokens(g: Grant, previous: Option<string>, account: Option<string>, issuer: Option<string>): Tokens {
    Tokens(g.access, g.refresh.Or(previous), account, issuer, g.expiresAt)
  }

  /** What the world answers to one refresh: staleness, the issuer's grant if any, and whether the save succeeds. */
  datatype Oracle = Oracle(stale: bool, grant: Option<Grant>, saves: bool)

  datatype Refreshed = Refreshed(ok: bool, presented: Option<string>, stored: Option<Tokens>)

  function Refresh(stored: Option<Tokens>, mode: Mode, o: Oracle, issuer: string): Refreshed {
    if stored.None? then Refreshed(false, None, stored)
    else
      var t := stored.value;
      if mode == IfStale && !o.stale then Refreshed(true, None, stored)
      else if t.refresh.None? then Refreshed(false, None, stored)
      else if o.grant.None? || !o.saves then Refreshed(false, t.refresh, stored)
      else Refreshed(true, t.refresh, Some(IntoTokens(o.grant.value, t.refresh, t.account, t.issuer.Or(Some(issuer)))))
  }

  /** One refresh after another of the same stored credential. */
  function RefreshAll(stored: Option<Tokens>, asked: seq<(Mode, Oracle)>, issuer: string): Option<Tokens>
    decreases |asked|
  {
    if asked == [] then stored
    else RefreshAll(Refresh(stored, asked[0].0, asked[0].1, issuer).stored, asked[1..], issuer)
  }

  // However many refreshes follow, and whatever the issuer leaves out, a
  // credential that can be renewed stays one, for the same account and issuer.
  lemma {:induction false} RefreshTokenIsNeverLost(stored: Option<Tokens>, asked: seq<(Mode, Oracle)>, issuer: string)
    requires stored.Some? && stored.value.refresh.Some?
    ensures var after := RefreshAll(stored, asked, issuer);
            && after.Some? && after.value.refresh.Some? && after.value.account == stored.value.account
            && (stored.value.issuer.Some? ==> after.value.issuer == stored.value.issuer)
    decreases |asked|
  {
    if asked != [] {
      RefreshTokenIsNeverLost(Refresh(stored, asked[0].0, asked[0].1, issuer).stored, asked[1..], issuer);
    }
  }

  // Exactly when a refresh works, when it presents the stored refresh token, and
  // what it then stores: the granted tokens, with nothing renewable lost.
  lemma RefreshesExactlyWhen(stored: Option<Tokens>, mode: Mode, o: Oracle, issuer: string)
    ensures var r := Refresh(stored, mode, o, issuer);
            var due := mode == Force || o.stale;
            && (r.ok <==> stored.Some? && (due ==> stored.value.refresh.Some? && o.grant.Some? && o.saves))
            && (r.presented.Some? <==> stored.Some? && stored.value.refresh.Some? && due)
            && (r.presented.Some? ==> r.presented == stored.value.refresh)
            && (r.ok && due ==> r.stored.Some? && r.stored.value.access == o.grant.value.access
                                && r.stored.value.expiresAt == o.grant.value.expiresAt
                                && r.stored.value.refresh.GetOr("") ==
                                    o.grant.value.refresh.GetOr(stored.value.refresh.value))
            && (!(r.ok && due) ==> r.stored == stored)
  {
  }

  class CredentialFile {
    var stored: Option<Tokens>
    var presented: seq<string>

    constructor (stored: Option<Tokens>)
      ensures this.stored == stored && presented == []
    {
      this.stored := stored;
      presented := [];
    }

    /** The sequence under the lock: load, decide, exchange, save. */
    method PerformRefresh(mode: Mode, o: Oracle, issuer: string) returns (ok: bool)
      modifies this
      ensures var r := Refresh(old(stored), mode, o, issuer);
              && ok == r.ok && stored == r.stored
              && presented == old(presented) + if r.presented.Some? then [r.presented.value] else []
    {
      var tokens := stored;
      if tokens.None? {
        return false;
      }
      if mode == IfStale && !o.stale {
        return true;
      }
      var refreshToken := tokens.value.refresh;
      if refreshToken.None? {
        return false;
      }
      presented := presented + [refreshToken.value];
      if o.grant.None? {
        return false;
      }
      if !o.saves {
        return false;
      }
      stored := Some(IntoTokens(o.grant.value, refreshToken, tokens.value.account,
          tokens.value.issuer.Or(Some(issuer))));
      ok := true;
    }
  }
}
