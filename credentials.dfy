/**
 * The credential store behind every route: one `UserCredentials` row per
 * e-mail address, written by the OAuth callback and read back by each route
 * before it talks to the calendar.
 */
module Credentials {
  import opened Wrappers

  /** What the OAuth flow hands back: the six fields that are stored. */
  datatype OAuthCredentials = OAuthCredentials(
    token: Option<string>,
    refreshToken: Option<string>,
    tokenUri: Option<string>,
    clientId: Option<string>,
    clientSecret: Option<string>,
    scopes: Option<seq<string>>)

  /** A `UserCredentials` row; the `scopes` column holds the list itself rather than its JSON text. */
  datatype Record = Record(
    userEmail: string,
    token: Option<string>,
    refreshToken: Option<string>,
    tokenUri: Option<string>,
    clientId: Option<string>,
    clientSecret: Option<string>,
    scopes: Option<seq<string>>)

  /** `UserCredentials(user_email=email)`: a fresh row with every other column empty. */
  function NewRecord(email: string): (r: Record)
    ensures r.userEmail == email
    ensures r.token.None? && r.refreshToken.None? && r.tokenUri.None?
    ensures r.clientId.None? && r.clientSecret.None? && r.scopes.None?
  {
    Record(email, None, None, None, None, None, None)
  }

  /** The row the callback leaves behind: the address, then all six fields taken from the new credentials. */
  function Stored(email: string, creds: OAuthCredentials): (r: Record)
    ensures r.userEmail == email
    ensures ToCredentials(r) == creds
  {
    Record(email, creds.token, creds.refreshToken, creds.tokenUri,
           creds.clientId, creds.clientSecret, creds.scopes)
  }

  /** `to_dict`: the keyword arguments the routes rebuild credentials from. */
  function ToCredentials(r: Record): OAuthCredentials {
    OAuthCredentials(r.token, r.refreshToken, r.tokenUri, r.clientId, r.clientSecret, r.scopes)
  }

  /** Every row is filed under its own address, so `user_email` stays unique. */
  ghost predicate KeysMatchEmails(records: map<string, Record>) {
    forall email :: email in records ==> records[email].userEmail == email
  }

  /** The table after the callback has saved `creds` for `email`. */
  function Upserted(records: map<string, Record>, email: string, creds: OAuthCredentials): (r: map<string, Record>)
    ensures r.Keys == records.Keys + {email}
    ensures email in r && r[email].userEmail == email && ToCredentials(r[email]) == creds
    ensures forall other :: other in records && other != email ==> r[other] == records[other]
  {
    records[email := Stored(email, creds)]
  }

  /** `UserCredentials.query.filter_by(user_email=email).first()`. */
  function Find(records: map<string, Record>, email: string): (r: Option<Record>)
    ensures r.Some? <==> email in records
    ensures r.Some? ==> r.value == records[email]
  {
    if email in records then Some(records[email]) else None
  }

  /** The `UserCredentials` table, keyed by `user_email`. */
  class CredentialStore {
    var records: map<string, Record>

    ghost predicate Valid()
      reads this
    {
      KeysMatchEmails(records)
    }

    /** The table `db.create_all()` creates in a fresh database: empty. */
    constructor()
      ensures Valid()
      ensures records == map[]
    {
      records := map[];
    }

    /**
     * The callback's upsert: find the row for `email` or start a new one,
     * assign the six credential fields one by one (a missing refresh token
     * included), and save it.
     */
    method Upsert(email: string, creds: OAuthCredentials)
      requires Valid()
      modifies this
      ensures Valid()
      ensures records == Upserted(old(records), email, creds)
    {
      var row: Record;
      if email in records {
        row := records[email];
      } else {
        row := NewRecord(email);
      }
      row := row.(token := creds.token);
      row := row.(refreshToken := creds.refreshToken);
      row := row.(tokenUri := creds.tokenUri);
      row := row.(clientId := creds.clientId);
      row := row.(clientSecret := creds.clientSecret);
      row := row.(scopes := creds.scopes);
      records := records[email := row];
    }

    /** The lookup each route starts with. */
    method Lookup(email: string) returns (r: Option<Record>)
      requires Valid()
      ensures r == Find(records, email)
      ensures r.Some? ==> r.value.userEmail == email
    {
      if email in records {
        r := Some(records[email]);
      } else {
        r := None;
      }
    }
  }

  // ---------------------------------------------------------------------------
  // What the upsert promises.
  // ---------------------------------------------------------------------------

  /** After saving, a lookup of the address finds a row holding exactly the new credentials, a missing refresh token included. */
  lemma LookupAfterUpsert(records: map<string, Record>, email: string, creds: OAuthCredentials)
    ensures var found := Find(Upserted(records, email, creds), email);
      && found.Some?
      && found.value.userEmail == email
      && ToCredentials(found.value) == creds
  {
  }

  /** A refresh token already on file is dropped when the new credentials carry none. */
  lemma RefreshTokenOverwritten(records: map<string, Record>, email: string, creds: OAuthCredentials)
    requires email in records && records[email].refreshToken.Some?
    requires creds.refreshToken.None?
    ensures Upserted(records, email, creds)[email].refreshToken.None?
  {
  }

  /** Rows of other addresses are neither added, removed nor changed. */
  lemma OthersUnchanged(records: map<string, Record>, email: string, creds: OAuthCredentials, other: string)
    requires other != email
    ensures other in Upserted(records, email, creds) <==> other in records
    ensures Find(Upserted(records, email, creds), other) == Find(records, other)
  {
  }

  /** Exactly one row is added when the address was new, and none otherwise. */
  lemma UpsertSize(records: map<string, Record>, email: string, creds: OAuthCredentials)
    ensures |Upserted(records, email, creds)| == if email in records then |records| else |records| + 1
  {
    var after := Upserted(records, email, creds);
    if email in records {
      assert after.Keys == records.Keys;
    } else {
      assert after.Keys == records.Keys + {email};
    }
  }

  /** Of two upserts for one address, one after the other, only the later counts. */
  lemma LastWriteWins(records: map<string, Record>, email: string, first: OAuthCredentials, second: OAuthCredentials)
    ensures Upserted(Upserted(records, email, first), email, second) == Upserted(records, email, second)
  {
  }

  /** Saving the same credentials twice is the same as saving them once. */
  lemma UpsertIdempotent(records: map<string, Record>, email: string, creds: OAuthCredentials)
    ensures Upserted(Upserted(records, email, creds), email, creds) == Upserted(records, email, creds)
  {
    LastWriteWins(records, email, creds, creds);
  }

  /**
   * `UserCredentials.query.filter_by(user_email=email).first()` filters on the
   * `user_email` column: with every row filed under its own address, the map
   * lookup finds exactly the row whose column holds the address.
   */
  lemma FindIsColumnFilter(records: map<string, Record>, email: string, r: Record)
    requires KeysMatchEmails(records)
    ensures Find(records, email) == Some(r) <==> r in records.Values && r.userEmail == email
  {
    if r in records.Values && r.userEmail == email {
      var key :| key in records && records[key] == r;
      assert key == email;
    }
  }

  /** No two rows share an address once every row is filed under its own. */
  lemma OneRowPerEmail(records: map<string, Record>, email: string)
    requires KeysMatchEmails(records)
    ensures forall key :: key in records && records[key].userEmail == email ==> key == email
  {
  }

  /** The upsert keeps every row filed under its own address. */
  lemma UpsertKeepsKeys(records: map<string, Record>, email: string, creds: OAuthCredentials)
    requires KeysMatchEmails(records)
    ensures KeysMatchEmails(Upserted(records, email, creds))
  {
  }
}
