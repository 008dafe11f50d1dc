/**
 Mock authentication: the e-mail rule of `/api/auth/login` and the
 `require_auth` header check that guards every other endpoint.
 */
module Auth {
  import opened Text

  const StockMasterId: string := "SM001"
  const WarehouseStaffId: string := "WH002"

  /** The marker whose case-insensitive presence in an e-mail selects the
      stock master identity. */
  const StockMasterMarker: string := "stockmaster"

  /** The header `require_auth` looks for, and its rejection. */
  const AuthHeader: string := "User-Id"
  const UnauthorizedStatus: nat := 401
  const MissingHeaderMessage: string := "Authentication required. Missing User-Id header."

  datatype LoginReply = LoginReply(
    success: bool,
    userId: string,
    role: string,
    message: string,
    profileName: string)

  datatype Header = Header(name: string, value: string)

  /** "stockmaster", in any mix of letter case, starts at index `i`. */
  predicate MarkerAt(email: string, i: int) {
    0 <= i && i + |StockMasterMarker| <= |email|
    && Lower(email[i..i + |StockMasterMarker|]) == StockMasterMarker
  }

  /** The e-mail holds "stockmaster" in any mix of letter case. */
  ghost predicate MentionsStockMaster(email: string) {
    exists i :: MarkerAt(email, i)
  }

  lemma LowerSlice(s: string, i: int, j: int)
    requires 0 <= i <= j <= |s|
    ensures Lower(s)[i..j] == Lower(s[i..j])
  {
  }

  lemma {:induction false} MarkerInLowered(email: string)
    ensures Contains(Lower(email), StockMasterMarker) <==> MentionsStockMaster(email)
  {
    var n := |StockMasterMarker|;
    if Contains(Lower(email), StockMasterMarker) {
      var i :| OccursAt(Lower(email), StockMasterMarker, i);
      LowerSlice(email, i, i + n);
      assert MarkerAt(email, i);
    }
    if MentionsStockMaster(email) {
      var i :| MarkerAt(email, i);
      LowerSlice(email, i, i + n);
      assert OccursAt(Lower(email), StockMasterMarker, i);
    }
  }

  function RoleOf(userId: string): string {
    if userId == StockMasterId then "StockMaster" else "WarehouseStaff"
  }

  function ProfileNameOf(userId: string): string {
    if userId == StockMasterId then "StockMaster" else "Warehouse Staff"
  }

  /** `mock_login`: every e-mail logs in; the stock master identity goes to
      e-mails mentioning "stockmaster" in any case, everyone else is
      warehouse staff, and the role and profile name follow from the id. */
  function MockLogin(email: string): (r: LoginReply)
    ensures r.success
    ensures r.userId == StockMasterId <==> MentionsStockMaster(email)
    ensures r.userId == StockMasterId || r.userId == WarehouseStaffId
    ensures r.role == RoleOf(r.userId) && r.profileName == ProfileNameOf(r.userId)
    ensures r.message == "Successfully logged in as " + r.role + "."
  {
    MarkerInLowered(email);
    var userId := if Contains(Lower(email), StockMasterMarker) then StockMasterId else WarehouseStaffId;
    var role := if userId == StockMasterId then "StockMaster" else "WarehouseStaff";
    LoginReply(
      true,
      userId,
      role,
      "Successfully logged in as " + role + ".",
      if userId == StockMasterId then "StockMaster" else "Warehouse Staff")
  }

  /** Two e-mails that agree once lower-cased log in identically. */
  lemma LoginIgnoresCase(e1: string, e2: string)
    requires Lower(e1) == Lower(e2)
    ensures MockLogin(e1) == MockLogin(e2)
  {
  }

  /** Role and profile name depend on nothing but the user id. */
  lemma IdentityFollowsUserId(e1: string, e2: string)
    requires MockLogin(e1).userId == MockLogin(e2).userId
    ensures MockLogin(e1).role == MockLogin(e2).role
    ensures MockLogin(e1).profileName == MockLogin(e2).profileName
    ensures MockLogin(e1) == MockLogin(e2)
  {
  }

  /** An 11-character word whose characters lower-case one by one to the
      marker's characters spells the marker. */
  lemma SpellsMarker(w: string)
    requires |w| == |StockMasterMarker|
    requires forall k :: 0 <= k < |w| ==> LowerChar(w[k]) == StockMasterMarker[k]
    ensures Lower(w) == StockMasterMarker
  {
  }

  /** A case-insensitive occurrence of the marker anywhere selects the
      stock master, with its role and profile name. */
  lemma MarkerSelectsStockMaster(email: string, i: int)
    requires MarkerAt(email, i)
    ensures MockLogin(email).userId == StockMasterId
    ensures MockLogin(email).role == "StockMaster" && MockLogin(email).profileName == "StockMaster"
  {
  }

  /** A mixed-case spelling of the marker inside an address. */
  lemma MixedCaseExample()
    ensures MockLogin("Admin@StockMaster.io").userId == StockMasterId
  {
    var e := "Admin@StockMaster.io";
    SpellsMarker(e[6..17]);
    MarkerSelectsStockMaster(e, 6);
  }

  /** The marker in capitals and nothing else. */
  lemma CapitalsExample()
    ensures MockLogin("STOCKMASTER").profileName == "StockMaster"
  {
    var e := "STOCKMASTER";
    SpellsMarker(e[0..11]);
    MarkerSelectsStockMaster(e, 0);
  }

  /** U+212A KELVIN SIGN lower-cases to `k`, so it can stand in for the
      marker's `k`. */
  lemma KelvinSignExample()
    ensures MockLogin("stoc\U{212A}master").role == "StockMaster"
  {
    var e := "stoc\U{212A}master";
    SpellsMarker(e[0..11]);
    MarkerSelectsStockMaster(e, 0);
  }

  /** E-mails without the marker, the empty one included, get the
      warehouse staff identity. */
  lemma StaffExamples()
    ensures MockLogin("warehouse@example.com").userId == WarehouseStaffId
    ensures MockLogin("").role == "WarehouseStaff"
  {
    var e := "warehouse@example.com";
    assert forall j :: 0 <= j < |e| ==> e[j] != 'k' && e[j] != 'K' && e[j] != KelvinSign;
    WithoutKNoMarker(e);
  }

  /** Every spelling of the marker has a letter k in it. */
  lemma WithoutKNoMarker(email: string)
    requires forall j :: 0 <= j < |email| ==> LowerChar(email[j]) != 'k'
    ensures !MentionsStockMaster(email)
  {
    forall i | 0 <= i && i + |StockMasterMarker| <= |email|
      ensures !MarkerAt(email, i)
    {
      var w := email[i..i + |StockMasterMarker|];
      assert w[4] == email[i + 4];
      assert Lower(w)[4] != StockMasterMarker[4];
    }
  }

  /** Header names compare without regard to ASCII letter case, as in the
      web framework's header lookup. */
  predicate SameHeaderName(a: string, b: string) {
    Lower(a) == Lower(b)
  }

  /** `'User-Id' in request.headers`: presence alone, whatever the value. */
  predicate HasAuthHeader(headers: seq<Header>) {
    exists i :: 0 <= i < |headers| && SameHeaderName(headers[i].name, AuthHeader)
  }
}
