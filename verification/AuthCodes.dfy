/** The authorization-code endpoints: codes issued at /auth, redeemed at /token. Every handler touches
    the shared map once, under its lock, so handlers interleave as the steps below. */
module AuthCodes {
  import opened Prelude
  import opened Pkce

  datatype TokenSubject = TokenSubject(email: Octets, username: Octets, groups: seq<Octets>)

  datatype PendingCode = PendingCode(sub: TokenSubject, clientId: Octets, codeChallenge: Octets, issuedAt: u64)

  /** The login form as posted; absent fields are empty. */
  datatype AuthForm = AuthForm(clientId: Octets, redirectUri: Octets, codeChallenge: Octets, state: Octets)

  datatype Login = Found(user: TokenSubject) | NotFound | LookupFailed

  datatype Denial = InvalidRequest | UnknownCode | CodeExpired | PkceFailed | ServerError

  /** What a token says about its bearer. */
  datatype Claims = Claims(sub: TokenSubject, iss: Octets, aud: Octets, ttlSec: u64)

  datatype AuthReply = LoginForm(error: bool) | MissingParameters | Redirected(uri: Octets, code: Octets, state: Octets)

  type Codes = map<Octets, PendingCode>

  datatype Settings = Settings(issuer: Octets, tokenTtlSec: u64, codeTtlSec: u64, s256: Octets -> Octets)

  function SaturatingSub(a: u64, b: u64): u64 {
    if a < b then 0 else a - b
  }

  // ── Steps ───────────────────────────────────────────────────────────────────

  /** One handled request. `code` is the freshly drawn code, `now` the clock, `signed` whether signing
      succeeded. */
  datatype Step =
    | Auth(form: AuthForm, login: Login, code: Octets, now: u64)
    | Redeem(code: Octets, verifier: Octets, now: u64, signed: bool)

  predicate Issues(s: Step, c: Octets) {
    s.Auth? && s.login.Found? && s.code == c
  }

  /** The request reaches the code lookup. */
  predicate LooksUp(s: Step, c: Octets) {
    s.Redeem? && s.code == c && c != [] && s.verifier != []
  }

  /** What an issuing step records. */
  function Recorded(s: Step): PendingCode
    requires s.Auth? && s.login.Found?
  {
    PendingCode(s.login.user, s.form.clientId, s.form.codeChallenge, s.now)
  }

  function After(codes: Codes, s: Step): Codes {
    match s
    case Auth(_, Found(_), code, _) => codes[code := Recorded(s)]
    case Auth(_, _, _, _) => codes
    case Redeem(code, verifier, _, _) => if code == [] || verifier == [] then codes else codes - {code}
  }

  function CodesAfter(run: seq<Step>): Codes {
    if run == [] then map[] else After(CodesAfter(run[..|run| - 1]), run[|run| - 1])
  }

  /** What a token request is answered when `codes` are outstanding. */
  function Answer(st: Settings, codes: Codes, s: Step): Result<Claims, Denial>
    requires s.Redeem?
  {
    if s.code == [] || s.verifier == [] then Err(InvalidRequest)
    else if s.code !in codes then Err(UnknownCode)
    else
      var pc := codes[s.code];
      if SaturatingSub(s.now, pc.issuedAt) > st.codeTtlSec then Err(CodeExpired)
      else if st.s256(s.verifier) != pc.codeChallenge then Err(PkceFailed)
      else if !s.signed then Err(ServerError)
      else Ok(Claims(pc.sub, st.issuer, pc.clientId, st.tokenTtlSec))
  }

  // ── The server ──────────────────────────────────────────────────────────────

  class AuthServer {
    const settings: Settings
    var codes: Codes

    constructor (settings: Settings)
      ensures this.settings == settings && codes == CodesAfter([])
    {
      this.settings := settings;
      codes := map[];
    }

    /** Issues a code to a user who logged in, and to nobody else. */
    method AuthSubmit(form: AuthForm, login: Login, code: Octets, now: u64) returns (r: AuthReply)
      modifies this
      ensures codes == After(old(codes), Auth(form, login, code, now))
      ensures r.Redirected? <==> login.Found?
      ensures r.Redirected? ==> r == Redirected(form.redirectUri, code, form.state)
      ensures r.LoginForm? ==> r.error
      ensures r == MissingParameters <==>
                !login.Found? && (form.clientId == [] || form.redirectUri == [] || form.codeChallenge == [])
    {
      if !login.Found? {
        if form.clientId == [] || form.redirectUri == [] || form.codeChallenge == [] {
          return MissingParameters;
        }
        return LoginForm(true);
      }
      codes := codes[code := PendingCode(login.user, form.clientId, form.codeChallenge, now)];
      return Redirected(form.redirectUri, code, form.state);
    }

    /** Exchanges a code for a token. The code is removed before anything about it is checked. */
    method Token(code: Octets, verifier: Octets, now: u64, signed: bool) returns (r: Result<Claims, Denial>)
      modifies this
      ensures codes == After(old(codes), Redeem(code, verifier, now, signed))
      ensures r == Answer(settings, old(codes), Redeem(code, verifier, now, signed))
    {
      if code == [] || verifier == [] {
        return Err(InvalidRequest);
      }
      if code !in codes {
        assert codes - {code} == codes;
        return Err(UnknownCode);
      }
      var pc := codes[code];
      codes := codes - {code};
      if SaturatingSub(now, pc.issuedAt) > settings.codeTtlSec {
        return Err(CodeExpired);
      }
      var ok := VerifyS256(settings.s256, verifier, pc.codeChallenge);
      if !ok {
        return Err(PkceFailed);
      }
      if !signed {
        return Err(ServerError);
      }
      return Ok(Claims(pc.sub, settings.issuer, pc.clientId, settings.tokenTtlSec));
    }
  }

  // ── Whole runs ──────────────────────────────────────────────────────────────

  /** After `run`, code `c` stands as step `a` issued it: nobody looked it up or issued it again since. */
  predicate Stands(run: seq<Step>, c: Octets, a: nat) {
    && a < |run| && Issues(run[a], c)
    && forall k | a < k < |run| :: !Issues(run[k], c) && !LooksUp(run[k], c)
  }

  /** The map holds exactly the codes that stand, each as its own step recorded it. */
  lemma {:induction false} OutstandingCodes(run: seq<Step>, c: Octets)
    ensures c in CodesAfter(run) <==> exists a: nat :: Stands(run, c, a)
    ensures forall a: nat | Stands(run, c, a) :: c in CodesAfter(run) && CodesAfter(run)[c] == Recorded(run[a])
  {
    if run == [] {
    } else {
      var init, s := run[..|run| - 1], run[|run| - 1];
      assert run == init + [s];
      OutstandingCodes(init, c);
      OutstandingStep(init, s, c);
    }
  }

  lemma OutstandingStep(init: seq<Step>, s: Step, c: Octets)
    requires c in CodesAfter(init) <==> exists a: nat :: Stands(init, c, a)
    requires forall a: nat | Stands(init, c, a) :: c in CodesAfter(init) && CodesAfter(init)[c] == Recorded(init[a])
    ensures c in CodesAfter(init + [s]) <==> exists a: nat :: Stands(init + [s], c, a)
    ensures forall a: nat | Stands(init + [s], c, a) ::
              c in CodesAfter(init + [s]) && CodesAfter(init + [s])[c] == Recorded((init + [s])[a])
  {
    CodesSnoc(init, s, c);
    hide CodesAfter, After;
    var run := init + [s];
    forall a: nat
      ensures Stands(run, c, a) <==> if Issues(s, c) then a == |init| else Stands(init, c, a) && !LooksUp(s, c)
    {
      StandsSnoc(init, s, c, a);
    }
    forall a: nat | Stands(run, c, a) ensures c in CodesAfter(run) && CodesAfter(run)[c] == Recorded(run[a]) {
    }
    if c in CodesAfter(run) {
      if Issues(s, c) {
        assert Stands(run, c, |init|);
      } else {
        var a: nat :| Stands(init, c, a);
        assert Stands(run, c, a);
      }
    }
  }

  lemma CodesSnoc(init: seq<Step>, s: Step, c: Octets)
    ensures c in CodesAfter(init + [s]) <==> Issues(s, c) || (c in CodesAfter(init) && !LooksUp(s, c))
    ensures c in CodesAfter(init + [s]) ==>
              CodesAfter(init + [s])[c] == if Issues(s, c) then Recorded(s) else CodesAfter(init)[c]
  {
    assert (init + [s])[..|init|] == init;
  }

  lemma StandsSnoc(init: seq<Step>, s: Step, c: Octets, a: nat)
    ensures Stands(init + [s], c, a) <==> if Issues(s, c) then a == |init| else Stands(init, c, a) && !LooksUp(s, c)
  {
    var run, n := init + [s], |init|;
    assert run[n] == s;
    assert forall k | 0 <= k < n :: run[k] == init[k];
  }

  /** Step `j` of the run is answered with a token. */
  predicate Granted(st: Settings, run: seq<Step>, j: nat)
    requires j < |run|
  {
    run[j].Redeem? && Answer(st, CodesAfter(run[..j]), run[j]).Ok?
  }

  /** Step `j` redeems what step `a` issued: same code, nothing in between, in time, right verifier. */
  predicate Redeems(st: Settings, run: seq<Step>, a: nat, j: nat)
    requires j < |run|
  {
    && a < j && run[j].Redeem? && LooksUp(run[j], run[j].code)
    && Stands(run[..j], run[j].code, a)
    && run[j].now - run[a].now <= st.codeTtlSec
    && st.s256(run[j].verifier) == run[a].form.codeChallenge
  }

  /** A token is granted exactly when signing works and an earlier login issued the code, the code
      still stands, its lifetime has not passed and the verifier matches the recorded challenge. */
  lemma GrantedExactly(st: Settings, run: seq<Step>, j: nat)
    requires j < |run|
    ensures Granted(st, run, j) <==> run[j].Redeem? && run[j].signed && exists a: nat :: Redeems(st, run, a, j)
  {
    if run[j].Redeem? {
      var before, c := run[..j], run[j].code;
      OutstandingCodes(before, c);
      if Granted(st, run, j) {
        var a: nat :| Stands(before, c, a);
        assert Redeems(st, run, a, j);
      }
      if a: nat :| Redeems(st, run, a, j) {
        assert Stands(before, c, a);
      }
    }
  }

  /** Why a request is denied: each reason is given for exactly the requests that pass what is checked before
      it and fail this check. A clock that went back since the issuing counts as no time. */
  ghost predicate DeniedFor(st: Settings, run: seq<Step>, j: nat, why: Denial)
    requires j < |run| && run[j].Redeem?
  {
    var s := run[j];
    match why
    case InvalidRequest => s.code == [] || s.verifier == []
    case UnknownCode => LooksUp(s, s.code) && forall a: nat :: !Stands(run[..j], s.code, a)
    case CodeExpired => exists a: nat :: Meets(run, a, j) && s.now - run[a].now > st.codeTtlSec
    case PkceFailed =>
      exists a: nat ::
        && Meets(run, a, j) && s.now - run[a].now <= st.codeTtlSec
        && st.s256(s.verifier) != run[a].form.codeChallenge
    case ServerError => !s.signed && exists a: nat :: Redeems(st, run, a, j)
  }

  /** Step `j` looks up a code that stands as step `a` issued it. */
  predicate Meets(run: seq<Step>, a: nat, j: nat)
    requires j < |run|
  {
    a < j && run[j].Redeem? && LooksUp(run[j], run[j].code) && Stands(run[..j], run[j].code, a)
  }

  lemma StandsOnce(run: seq<Step>, c: Octets, a: nat, b: nat)
    requires Stands(run, c, a) && Stands(run, c, b)
    ensures a == b
  {
  }

  lemma DeniedExactly(st: Settings, run: seq<Step>, j: nat, why: Denial)
    requires j < |run| && run[j].Redeem?
    ensures Answer(st, CodesAfter(run[..j]), run[j]) == Err(why) <==> DeniedFor(st, run, j, why)
  {
    OutstandingCodes(run[..j], run[j].code);
    if a: nat :| Stands(run[..j], run[j].code, a) {
      StandingDenied(st, run, a, j, why);
    }
  }

  lemma StandingDenied(st: Settings, run: seq<Step>, a: nat, j: nat, why: Denial)
    requires j < |run| && run[j].Redeem? && Stands(run[..j], run[j].code, a)
    requires run[j].code in CodesAfter(run[..j]) && CodesAfter(run[..j])[run[j].code] == Recorded(run[a])
    ensures Answer(st, CodesAfter(run[..j]), run[j]) == Err(why) <==> DeniedFor(st, run, j, why)
  {
    hide CodesAfter;
    forall b: nat | Stands(run[..j], run[j].code, b) ensures a == b {
      StandsOnce(run[..j], run[j].code, a, b);
    }
    assert Meets(run, a, j) <==> LooksUp(run[j], run[j].code);
    assert Redeems(st, run, a, j) <==>
           && Meets(run, a, j) && run[j].now - run[a].now <= st.codeTtlSec
           && st.s256(run[j].verifier) == run[a].form.codeChallenge;
    hide Stands;
  }

  /** A granted token names the user who logged in and the client that asked. */
  lemma GrantedTokenIsTheirs(st: Settings, run: seq<Step>, a: nat, j: nat)
    requires j < |run| && Granted(st, run, j) && Stands(run[..j], run[j].code, a)
    ensures run[a].login.Found?
    ensures Answer(st, CodesAfter(run[..j]), run[j]) ==
            Ok(Claims(run[a].login.user, st.issuer, run[a].form.clientId, st.tokenTtlSec))
  {
    OutstandingCodes(run[..j], run[j].code);
  }

  /** The codes drawn in a run are all different. */
  predicate FreshCodes(run: seq<Step>) {
    forall i, j | 0 <= i < j < |run| && Issues(run[j], run[j].code) :: !Issues(run[i], run[j].code)
  }

  /** A lookup burns its code: whatever it was answered, the code is refused until it is issued anew. */
  lemma LookupBurns(st: Settings, run: seq<Step>, c: Octets, i: nat, j: nat)
    requires i < j < |run| && LooksUp(run[i], c) && LooksUp(run[j], c)
    requires forall k | i < k < j :: !Issues(run[k], c)
    ensures Answer(st, CodesAfter(run[..j]), run[j]) == Err(UnknownCode)
  {
    OutstandingCodes(run[..j], c);
    forall b: nat ensures !Stands(run[..j], c, b) {
      BurntDoesNotStand(run, c, i, j, b);
    }
  }

  lemma BurntDoesNotStand(run: seq<Step>, c: Octets, i: nat, j: nat, b: nat)
    requires i < j < |run| && LooksUp(run[i], c)
    requires forall k | i < k < j :: !Issues(run[k], c)
    ensures !Stands(run[..j], c, b)
  {
    assert run[..j][i] == run[i];
  }

  /** Two tokens granted for one code come from two different issuings of it. */
  lemma TokensNeedIssuings(st: Settings, run: seq<Step>, i: nat, j: nat, a: nat, b: nat)
    requires i < j < |run| && run[i].Redeem? && run[j].Redeem? && run[i].code == run[j].code
    requires Redeems(st, run, a, i) && Redeems(st, run, b, j)
    ensures a < i < b < j
  {
    assert run[..j][i] == run[i];
  }

  /** Each code yields at most one token. */
  lemma OneTokenPerCode(st: Settings, run: seq<Step>, i: nat, j: nat)
    requires FreshCodes(run) && i < |run| && j < |run|
    requires Granted(st, run, i) && Granted(st, run, j) && run[i].code == run[j].code
    ensures i == j
  {
    GrantedExactly(st, run, i);
    GrantedExactly(st, run, j);
    var a: nat :| Redeems(st, run, a, i);
    var b: nat :| Redeems(st, run, b, j);
    if i < j {
      TokensNeedIssuings(st, run, i, j, a, b);
    } else if j < i {
      TokensNeedIssuings(st, run, j, i, b, a);
    }
  }
}
