/** The OAuth2 user service: after GitHub login, pick the user's primary
    email from GitHub's email list (or a no-reply address), and create or
    update the user row with that login. */
module OAuthUsers {
  import opened Wrappers

  const NoReplySuffix: string := "@users.noreply.github.com"

  /** An entry of `GET /user/emails`; its email may be null. */
  datatype GitHubEmail = GitHubEmail(email: Option<string>, primary: bool)

  /** The email request: it throws, or its body (null or an array whose
      entries may be null) arrives. */
  datatype EmailsFetch = ExchangeFailed | Fetched(body: Option<seq<Option<GitHubEmail>>>)

  /** The upstream OAuth2 user that `super.loadUser` gives. */
  datatype OAuthUser = OAuthUser(login: string, attributes: map<string, string>)

  /** A `users` row of this service; a row's position stands for its id. */
  datatype Account = Account(email: string, githubUsername: string, githubToken: string)

  predicate IsPrimaryEntry(e: Option<GitHubEmail>) {
    e.Some? && e.value.primary
  }

  /** The position of the first non-null entry flagged primary. */
  function FirstPrimary(es: seq<Option<GitHubEmail>>): (r: Option<nat>)
    ensures r.None? <==> forall i :: 0 <= i < |es| ==> !IsPrimaryEntry(es[i])
    ensures r.Some? ==> r.value < |es| && IsPrimaryEntry(es[r.value])
    ensures r.Some? ==> forall j :: 0 <= j < r.value ==> !IsPrimaryEntry(es[j])
    decreases |es|
  {
    if |es| == 0 then None
    else if IsPrimaryEntry(es[0]) then Some(0)
    else
      match FirstPrimary(es[1..])
      case None => None
      case Some(i) => Some(i + 1)
  }

  /** getPrimaryEmail: null when the request fails or the list is null or
      empty; the email of the first primary entry (null when that email is
      null, as the stream then throws and the exception is caught); without a
      primary entry, the first entry's email, or null if it is null. */
  function PrimaryEmail(fetch: EmailsFetch): Option<string> {
    match fetch
    case ExchangeFailed => None
    case Fetched(None) => None
    case Fetched(Some(es)) =>
      if |es| == 0 then None
      else match FirstPrimary(es)
        case Some(i) => es[i].value.email
        case None => if es[0].None? then None else es[0].value.email
  }

  /** loadUser's email: the primary email, or the no-reply address of the
      login when it is null or empty. The result is never empty. */
  function EmailFor(found: Option<string>, login: string): (r: string)
    ensures r != []
    ensures found.Some? && found.value != [] ==> r == found.value
  {
    if found.None? || found.value == [] then login + NoReplySuffix else found.value
  }

  /** The first primary entry decides, whatever comes after it. */
  lemma PrimaryEntryChosen(es: seq<Option<GitHubEmail>>, i: nat)
    requires i < |es| && IsPrimaryEntry(es[i])
    requires forall j :: 0 <= j < i ==> !IsPrimaryEntry(es[j])
    ensures PrimaryEmail(Fetched(Some(es))) == es[i].value.email
  {
    var r := FirstPrimary(es);
    assert r.Some?;
  }

  /** Without a primary entry the first entry's email is used. */
  lemma FirstEntryWithoutPrimary(es: seq<Option<GitHubEmail>>)
    requires |es| > 0 && forall j :: 0 <= j < |es| ==> !IsPrimaryEntry(es[j])
    ensures PrimaryEmail(Fetched(Some(es))) == if es[0].None? then None else es[0].value.email
  {
  }

  /** A failed request, a null body and an empty list all end in the
      no-reply address. */
  lemma NoEmailMeansNoReply(fetch: EmailsFetch, login: string)
    requires fetch.ExchangeFailed? || fetch.body.None? || fetch.body.value == []
    ensures EmailFor(PrimaryEmail(fetch), login) == login + NoReplySuffix
  {
  }

  predicate UniqueLogins(rows: seq<Account>) {
    forall i, j :: 0 <= i < j < |rows| ==> rows[i].githubUsername != rows[j].githubUsername
  }

  /** The position of the row with the login (findByGithubUsername). */
  function LoginIndex(rows: seq<Account>, login: string): (r: Option<nat>)
    ensures r.None? <==> forall i :: 0 <= i < |rows| ==> rows[i].githubUsername != login
    ensures r.Some? ==> r.value < |rows| && rows[r.value].githubUsername == login
    ensures r.Some? ==> forall j :: 0 <= j < r.value ==> rows[j].githubUsername != login
    decreases |rows|
  {
    if |rows| == 0 then None
    else if rows[0].githubUsername == login then Some(0)
    else
      match LoginIndex(rows[1..], login)
      case None => None
      case Some(i) => Some(i + 1)
  }

  /** The rows after loadUser's upsert: the row with the login gets the new
      email and token, or a new row is appended. */
  function UpsertAccount(rows: seq<Account>, login: string, email: string, token: string): seq<Account> {
    match LoginIndex(rows, login)
    case Some(i) => rows[i := Account(email, login, token)]
    case None => rows + [Account(email, login, token)]
  }

  /** The upsert keeps logins unique, leaves exactly one row with the login,
      holding the new email and token, keeps every other row, and adds a row
      only for a new login. */
  lemma UpsertAccountShape(rows: seq<Account>, login: string, email: string, token: string)
    requires UniqueLogins(rows)
    ensures var r := UpsertAccount(rows, login, email, token);
            && UniqueLogins(r)
            && LoginIndex(r, login).Some?
            && r[LoginIndex(r, login).value] == Account(email, login, token)
            && |r| == |rows| + (if LoginIndex(rows, login).Some? then 0 else 1)
            && (forall i :: 0 <= i < |rows| && rows[i].githubUsername != login ==> r[i] == rows[i])
  {
    var r := UpsertAccount(rows, login, email, token);
    match LoginIndex(rows, login) {
      case Some(i) =>
        assert r[i] == Account(email, login, token);
        assert forall j :: 0 <= j < |r| && j != i ==> r[j] == rows[j] && rows[j].githubUsername != login;
        assert LoginIndex(r, login) == Some(i);
      case None =>
        assert r[|rows|] == Account(email, login, token);
        assert forall j :: 0 <= j < |rows| ==> r[j] == rows[j] && rows[j].githubUsername != login;
        assert LoginIndex(r, login) == Some(|rows|);
    }
  }

  /** Logging in twice with the same data changes nothing the second time. */
  lemma UpsertAccountIdempotent(rows: seq<Account>, login: string, email: string, token: string)
    requires UniqueLogins(rows)
    ensures var r := UpsertAccount(rows, login, email, token);
            UpsertAccount(r, login, email, token) == r
  {
    UpsertAccountShape(rows, login, email, token);
  }

  /** The user table and the number of saves it received. */
  class UserRepository {
    var rows: seq<Account>
    var saves: nat

    ghost predicate Valid()
      reads this
    {
      UniqueLogins(rows)
    }

    constructor ()
      ensures Valid() && rows == [] && saves == 0
    {
      rows := [];
      saves := 0;
    }

    /** findByGithubUsername. */
    method FindByLogin(login: string) returns (found: Option<nat>)
      ensures found == LoginIndex(rows, login)
    {
      var i := 0;
      while i < |rows|
        invariant 0 <= i <= |rows|
        invariant forall j :: 0 <= j < i ==> rows[j].githubUsername != login
      {
        if rows[i].githubUsername == login {
          return Some(i);
        }
        i := i + 1;
      }
      return None;
    }

    /** save of an existing row. */
    method SaveExisting(i: nat, a: Account)
      requires i < |rows|
      modifies this
      ensures rows == old(rows)[i := a] && saves == old(saves) + 1
    {
      rows := rows[i := a];
      saves := saves + 1;
    }

    /** save of a new row. */
    method SaveNew(a: Account)
      modifies this
      ensures rows == old(rows) + [a] && saves == old(saves) + 1
    {
      rows := rows + [a];
      saves := saves + 1;
    }
  }

  /** loadUser. `upstream` is the user `super.loadUser` fetched and `emails`
      the outcome of the email request made with `accessToken`. Exactly one
      save happens, and the upstream user is returned unchanged. */
  method LoadUser(repo: UserRepository, upstream: OAuthUser, accessToken: string, emails: EmailsFetch)
    returns (user: OAuthUser)
    requires repo.Valid()
    modifies repo
    ensures repo.Valid()
    ensures user == upstream
    ensures repo.rows == UpsertAccount(old(repo.rows), upstream.login,
                                       EmailFor(PrimaryEmail(emails), upstream.login), accessToken)
    ensures repo.saves == old(repo.saves) + 1
  {
    var githubUsername := upstream.login;
    var email := PrimaryEmail(emails);
    var finalEmail := EmailFor(email, githubUsername);
    UpsertAccountShape(repo.rows, githubUsername, finalEmail, accessToken);
    var found := repo.FindByLogin(githubUsername);
    match found {
      case Some(i) =>
        var existing := repo.rows[i];
        repo.SaveExisting(i, Account(finalEmail, existing.githubUsername, accessToken));
      case None =>
        repo.SaveNew(Account(finalEmail, githubUsername, accessToken));
    }
    return upstream;
  }
}
