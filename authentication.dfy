/**
 * The authentication middlewares: the process-wide cache from org id to
 * account id, the identity-header reading and the small checks around it.
 * The database behind GetOrCreateAccount and the identity parser are
 * parameters.
 */
module Authentication {
  import opened Wrappers
  import opened Strings
  import opened GinContext

  const KeyAccount := "account"
  const KeyUser := "user"
  const UIReferer := "console.redhat.com"
  const APISource := "API"
  const UISource := "UI"
  const IdentityHeader := "x-rh-identity"
  const MissingOrgId := "missing org_id"
  const MissingIdentity := "Missing x-rh-identity header"
  const InvalidIdentity := "Invalid x-rh-identity header"

  // ---------------------------------------------------------------------
  // Accounts
  // ---------------------------------------------------------------------

  /**
   * The two database steps of GetOrCreateAccount: `find` gives the id of the
   * row with that org id, 0 when there is none or the query failed (the
   * error is only logged); `create` inserts a row and gives its id or an error.
   */
  datatype AccountDb = AccountDb(find: string -> int, create: string -> Result<int, string>)

  /** GetOrCreateAccount: refuse an empty org id, else the found id, else a fresh row. */
  function GetOrCreateAccount(orgID: string, db: AccountDb): (r: Result<int, string>)
    ensures orgID == "" ==> r == Err(MissingOrgId)
    ensures r.Ok? ==> orgID != ""
    ensures orgID != "" && db.find(orgID) != 0 ==> r == Ok(db.find(orgID))
    ensures orgID != "" && db.find(orgID) == 0 ==> r == db.create(orgID)
  {
    if orgID == "" then Err(MissingOrgId)
    else if db.find(orgID) != 0 then Ok(db.find(orgID))
    else db.create(orgID)
  }

  /** The empty-org-id guard answers the same whatever the database would say. */
  lemma EmptyOrgIdSkipsDatabase(db1: AccountDb, db2: AccountDb)
    ensures GetOrCreateAccount("", db1) == GetOrCreateAccount("", db2) == Err(MissingOrgId)
  {
  }

  /** The account id findAccount resolves an org id to, given the cache contents, or None. */
  function ResolvedAccount(values: map<string, int>, orgID: string, db: AccountDb): (r: Option<int>)
    ensures orgID in values ==> r == Some(values[orgID])
    ensures orgID !in values ==>
      (r.Some? <==> orgID != "" && (db.find(orgID) != 0 || db.create(orgID).Ok?))
    ensures orgID == "" && orgID !in values ==> r == None
    ensures orgID !in values && r.Some? ==>
      r.value == if db.find(orgID) != 0 then db.find(orgID) else db.create(orgID).value
  {
    if orgID in values then Some(values[orgID])
    else match GetOrCreateAccount(orgID, db)
      case Ok(id) => Some(id)
      case Err(_) => None
  }

  /** The `AccountIDCache` (org id to account id), without its lock. */
  class AccountIdCache {
    var values: map<string, int>
    /** The org ids the database resolved for this cache, in order. */
    ghost var resolved: seq<string>

    /**
     * Every cached org id was resolved by the database exactly once, and
     * the empty org id is never cached.
     */
    ghost predicate Valid()
      reads this
    {
      && (forall o :: o in values <==> o in resolved)
      && (forall i, j :: 0 <= i < j < |resolved| ==> resolved[i] != resolved[j])
      && "" !in values
    }

    constructor ()
      ensures Valid() && values == map[] && resolved == []
    {
      values := map[];
      resolved := [];
    }

    /**
     * findAccount: on a hit the cached id goes into the context; on a miss
     * the database is asked, and only a success is cached and stored.
     */
    method FindAccount(c: Context, orgID: string, db: AccountDb) returns (ok: bool)
      requires Valid()
      modifies this, c`keys
      ensures Valid()
      ensures ok <==> ResolvedAccount(old(values), orgID, db).Some?
      ensures ok ==> c.keys == old(c.keys)[KeyAccount := AccountId(ResolvedAccount(old(values), orgID, db).value)]
      ensures !ok ==> c.keys == old(c.keys)
      ensures orgID in old(values) ==> values == old(values) && resolved == old(resolved)
      ensures orgID !in old(values) && ok ==>
        values == old(values)[orgID := ResolvedAccount(old(values), orgID, db).value] &&
        resolved == old(resolved) + [orgID]
      ensures !ok ==> values == old(values) && resolved == old(resolved)
      ensures forall o :: o in old(values) ==> o in values && values[o] == old(values)[o]
    {
      if orgID in values {
        var id := values[orgID];
        c.Set(KeyAccount, AccountId(id));
      } else {
        var r := GetOrCreateAccount(orgID, db);
        if r.Err? {
          return false;
        }
        var accID := r.value;
        values := values[orgID := accID];
        resolved := resolved + [orgID];
        c.Set(KeyAccount, AccountId(accID));
      }
      return true;
    }
  }

  /**
   * Callers after the first successful one for the same org id see the same
   * account id, and the database resolves that org id at most once.
   */
  method RepeatedResolution(cache: AccountIdCache, c1: Context, c2: Context, orgID: string, db1: AccountDb, db2: AccountDb)
    returns (ok1: bool, ok2: bool)
    requires cache.Valid()
    modifies cache, c1`keys, c2`keys
    ensures cache.Valid()
    ensures ok1 ==> ok2 && KeyAccount in c1.keys && KeyAccount in c2.keys
    ensures ok1 && c1 != c2 ==> c2.keys[KeyAccount] == c1.keys[KeyAccount]
    ensures |cache.resolved| <= |old(cache.resolved)| + 1
  {
    ok1 := cache.FindAccount(c1, orgID, db1);
    ok2 := cache.FindAccount(c2, orgID, db2);
  }

  // ---------------------------------------------------------------------
  // The identity header
  // ---------------------------------------------------------------------

  /** The parts of the parsed x-rh-identity that the middlewares read. */
  datatype Identity = Identity(orgID: string, identityType: string, firstName: string, lastName: string)

  /** The outcome of GetXRHID: the identity, or the 401 response the request is aborted with. */
  function ReadIdentity(header: string, parse: string -> Option<Identity>): (r: Result<Identity, Abort>)
    ensures r.Ok? <==> header != "" && parse(header).Some?
    ensures r.Ok? ==> r.value == parse(header).value
    ensures r.Err? ==> r.error.status == StatusUnauthorized
    ensures r.Err? ==> (r.error.error == MissingIdentity <==> header == "")
    ensures r.Err? ==> r.error.error in {MissingIdentity, InvalidIdentity}
  {
    assert MissingIdentity[0] != InvalidIdentity[0];
    if header == "" then Err(Abort(StatusUnauthorized, MissingIdentity))
    else match parse(header)
      case None => Err(Abort(StatusUnauthorized, InvalidIdentity))
      case Some(xrhid) => Ok(xrhid)
  }

  /** GetXRHID: read and parse the identity header, aborting with 401 when it is missing or invalid. */
  method GetXRHID(c: Context, parse: string -> Option<Identity>) returns (xrhid: Option<Identity>)
    modifies c`aborted
    ensures match ReadIdentity(c.GetHeader(IdentityHeader), parse)
      case Ok(id) => xrhid == Some(id) && c.aborted == old(c.aborted)
      case Err(e) => xrhid == None && c.aborted == Some(e)
  {
    var identStr := c.GetHeader(IdentityHeader);
    if identStr == "" {
      c.AbortWithStatusJSON(StatusUnauthorized, MissingIdentity);
      return None;
    }
    var parsed := parse(identStr);
    if parsed.None? {
      c.AbortWithStatusJSON(StatusUnauthorized, InvalidIdentity);
      return None;
    }
    return parsed;
  }

  /** The user name stored in the context: first and last name with one space between. */
  function FullName(id: Identity): (name: string)
    ensures |name| == |id.firstName| + 1 + |id.lastName|
    ensures name[..|id.firstName|] == id.firstName
    ensures name[|id.firstName|] == ' '
    ensures name[|id.firstName| + 1..] == id.lastName
  {
    id.firstName + " " + id.lastName
  }

  /**
   * PublicAuthenticator: with a valid identity, resolve the account and,
   * only when that succeeds, store the user name as well.
   */
  method PublicAuthenticator(c: Context, cache: AccountIdCache, parse: string -> Option<Identity>, db: AccountDb)
    requires cache.Valid()
    modifies c`keys, c`aborted, cache
    ensures cache.Valid()
    ensures var r := ReadIdentity(c.GetHeader(IdentityHeader), parse);
      r.Err? ==> c.aborted == Some(r.error) && c.keys == old(c.keys) && unchanged(cache)
    ensures var r := ReadIdentity(c.GetHeader(IdentityHeader), parse);
      r.Ok? ==> (
        && c.aborted == old(c.aborted)
        && match ResolvedAccount(old(cache.values), r.value.orgID, db)
           case Some(id) =>
             c.keys == old(c.keys)[KeyAccount := AccountId(id)][KeyUser := UserName(FullName(r.value))]
           case None =>
             c.keys == old(c.keys))
    ensures var r := ReadIdentity(c.GetHeader(IdentityHeader), parse);
      r.Ok? ==>
        cache.values ==
          if r.value.orgID in old(cache.values) || ResolvedAccount(old(cache.values), r.value.orgID, db).None?
          then old(cache.values)
          else old(cache.values)[r.value.orgID := ResolvedAccount(old(cache.values), r.value.orgID, db).value]
  {
    var xrhid := GetXRHID(c, parse);
    if xrhid.None? {
      return;
    }
    var found := cache.FindAccount(c, xrhid.value.orgID, db);
    if found {
      c.Set(KeyUser, UserName(FullName(xrhid.value)));
    }
  }

  /** MockAuthenticator: store a fixed account id. */
  method MockAuthenticator(c: Context, account: int)
    modifies c`keys
    ensures c.keys == old(c.keys)[KeyAccount := AccountId(account)]
  {
    c.Set(KeyAccount, AccountId(account));
  }

  // ---------------------------------------------------------------------
  // Referer and Turnpike checks
  // ---------------------------------------------------------------------

  /** CheckReferer's label: the request comes from the UI exactly when the Referer names the console host. */
  function CallerSource(referer: string): (source: string)
    ensures source == UISource || source == APISource
    ensures source == UISource <==> exists i :: OccursAt(referer, UIReferer, i)
  {
    ContainsIff(referer, UIReferer);
    if Contains(referer, UIReferer) then UISource else APISource
  }

  /** The Turnpike identity type test: "associate" in any letter case. */
  predicate IsAssociate(identityType: string)
  {
    ToLower(identityType) == "associate"
  }

  /** The identity types Turnpike accepts are those that lower-case letter by letter to "associate". */
  lemma IsAssociateIff(identityType: string)
    ensures IsAssociate(identityType) <==>
      |identityType| == |"associate"| &&
      forall i :: 0 <= i < |identityType| ==> LowerChar(identityType[i]) == "associate"[i]
  {
    if |identityType| == |"associate"| &&
      forall i :: 0 <= i < |identityType| ==> LowerChar(identityType[i]) == "associate"[i]
    {
      assert ToLower(identityType) == "associate";
    }
  }

  /** "Associate" passes the Turnpike check. */
  lemma CapitalisedAssociateAccepted()
    ensures IsAssociate("Associate")
  {
    var t := "Associate";
    forall i | 0 <= i < |t| ensures LowerChar(t[i]) == "associate"[i] {
      if i == 0 {
        assert t[0] == 'A';
      } else {
        assert t[i] == "associate"[i];
      }
    }
    IsAssociateIff(t);
  }

  /** "ASSOCIATE" passes the Turnpike check. */
  lemma UpperCaseAssociateAccepted()
    ensures IsAssociate("ASSOCIATE")
  {
    var t := "ASSOCIATE";
    forall i | 0 <= i < |t| ensures LowerChar(t[i]) == "associate"[i] {
      assert t[i] as int + 32 == "associate"[i] as int;
    }
    IsAssociateIff(t);
  }

  /** The other identity types, and the empty one, do not. */
  lemma OtherTypesRejected()
    ensures !IsAssociate("User") && !IsAssociate("System") && !IsAssociate("")
  {
  }

  /** TurnpikeAuthenticator: abort with 401 unless the identity is valid and its type is "associate". */
  method TurnpikeAuthenticator(c: Context, parse: string -> Option<Identity>)
    modifies c`aborted
    ensures var r := ReadIdentity(c.GetHeader(IdentityHeader), parse);
      c.aborted == if r.Err? then Some(r.error)
        else if IsAssociate(r.value.identityType) then old(c.aborted)
        else Some(Abort(StatusUnauthorized, InvalidIdentity))
  {
    var xrhid := GetXRHID(c, parse);
    if xrhid.None? {
      return;
    }
    if !IsAssociate(xrhid.value.identityType) {
      c.AbortWithStatusJSON(StatusUnauthorized, InvalidIdentity);
      return;
    }
  }
}
