/**
 * The web client's route table and its global beforeEach guard, with the
 * two localStorage entries it reads (the token and the stored role) as
 * inputs. JavaScript's parseInt and truthiness are written out.
 */
module RouterGuard {
  import opened Wrappers
  import Users

  /** The meta fields the guard reads; a role of 0 or none means "no role check". */
  datatype Meta = Meta(requiresAuth: bool, role: Option<int>)

  datatype Route = Route(path: string, name: string, meta: Meta)

  const Public: Meta := Meta(false, None)
  const SignedIn: Meta := Meta(true, None)
  const Seller: Meta := Meta(true, Some(1))
  const Admin: Meta := Meta(true, Some(2))

  /** The route table, in declaration order. */
  const Routes: seq<Route> := [
    Route("/", "Home", Public),
    Route("/login", "Login", Public),
    Route("/register", "Register", Public),
    Route("/products", "ProductList", Public),
    Route("/product/:id", "ProductDetail", Public),
    Route("/cart", "Cart", SignedIn),
    Route("/checkout", "Checkout", SignedIn),
    Route("/order/list", "OrderList", SignedIn),
    Route("/order/detail/:id", "OrderDetail", SignedIn),
    Route("/order/pay/:orderNo", "OrderPay", SignedIn),
    Route("/order/comment/:id", "OrderComment", SignedIn),
    Route("/user/profile", "UserProfile", SignedIn),
    Route("/user/favorites", "UserFavorites", SignedIn),
    Route("/aftersale/apply/:orderId", "AftersaleApply", SignedIn),
    Route("/aftersale/list", "AftersaleList", SignedIn),
    Route("/aftersale/detail/:id", "AftersaleDetail", SignedIn),
    Route("/seller", "SellerDashboard", Seller),
    Route("/seller/products", "SellerProducts", Seller),
    Route("/seller/product/add", "SellerProductAdd", Seller),
    Route("/seller/product/edit/:id", "SellerProductEdit", Seller),
    Route("/admin", "AdminDashboard", Admin),
    Route("/error", "Error", Public),
    Route("/:pathMatch(.*)*", "NotFound", Public)
  ]

  /** Every route that checks a role also requires a token. */
  lemma RoleRoutesRequireAuth()
    ensures forall k :: 0 <= k < |Routes| && Routes[k].meta.role.Some? ==> Routes[k].meta.requiresAuth
  {
  }

  // ---------------------------------------------------------------------
  // parseInt

  /**
   * The characters JavaScript's parseInt skips: WhiteSpace (tab, vertical
   * tab, form feed, the byte order mark and every Unicode space separator)
   * and LineTerminator (LF, CR, U+2028, U+2029).
   */
  predicate JsSpace(c: char) {
    ('\t' <= c <= '\r') || c == ' ' || c == '\U{A0}' || c == '\U{1680}' || ('\U{2000}' <= c <= '\U{200A}')
    || c == '\U{2028}' || c == '\U{2029}' || c == '\U{202F}' || c == '\U{205F}' || c == '\U{3000}' || c == '\U{FEFF}'
  }

  /** The value of a digit in the given radix (10 or 16), or None. */
  function DigitValue(c: char, radix: nat): (d: Option<nat>)
    ensures d.Some? ==> d.value < radix
  {
    if '0' <= c <= '9' && (c as int - '0' as int) < radix then Some(c as nat - '0' as nat)
    else if radix == 16 && 'a' <= c <= 'f' then Some(c as nat - 'a' as nat + 10)
    else if radix == 16 && 'A' <= c <= 'F' then Some(c as nat - 'A' as nat + 10)
    else None
  }

  /** The longest prefix of s made of digits of the radix. */
  function DigitPrefix(s: string, radix: nat): (r: string)
    ensures |r| <= |s| && r == s[..|r|]
    ensures forall k :: 0 <= k < |r| ==> DigitValue(r[k], radix).Some?
    ensures |r| < |s| ==> DigitValue(s[|r|], radix).None?
  {
    if s == [] || DigitValue(s[0], radix).None? then "" else [s[0]] + DigitPrefix(s[1..], radix)
  }

  /** The number a string of digits denotes. */
  function DigitsValue(digits: string, radix: nat): nat
    requires forall k :: 0 <= k < |digits| ==> DigitValue(digits[k], radix).Some?
  {
    if digits == [] then 0
    else DigitsValue(digits[..|digits| - 1], radix) * radix + DigitValue(digits[|digits| - 1], radix).value
  }

  function DropSpaces(s: string): (r: string)
    ensures |r| <= |s| && r == s[|s| - |r|..]
    ensures r == [] || !JsSpace(r[0])
  {
    if s != [] && JsSpace(s[0]) then DropSpaces(s[1..]) else s
  }

  /** A leading '-' or '+' of a string without leading white space, and the rest. */
  function SplitSign(t: string): (r: (bool, string))
    ensures r.1 == t || (|t| > 0 && r.1 == t[1..])
    ensures t == [] || (t[0] != '-' && t[0] != '+') ==> r == (false, t)
  {
    if |t| > 0 && (t[0] == '-' || t[0] == '+') then (t[0] == '-', t[1..]) else (false, t)
  }

  /** "0x" or "0X" selects radix 16 and is skipped; anything else is decimal. */
  function SplitRadix(u: string): (r: (nat, string))
    ensures r.0 == 10 || r.0 == 16
    ensures !(|u| >= 2 && u[0] == '0') ==> r == (10, u)
  {
    if |u| >= 2 && u[0] == '0' && (u[1] == 'x' || u[1] == 'X') then (16, u[2..]) else (10, u)
  }

  /**
   * parseInt(s) without a radix: leading white space skipped, an optional
   * sign, "0x"/"0X" selecting hexadecimal, then the longest run of digits;
   * None (NaN) when there is none.
   */
  function ParseInt(s: string): (r: Option<int>)
    ensures DropSpaces(s) == [] ==> r.None?
  {
    var (negative, u) := SplitSign(DropSpaces(s));
    var (radix, body) := SplitRadix(u);
    var digits := DigitPrefix(body, radix);
    if digits == [] then None
    else
      var v: int := DigitsValue(digits, radix);
      Some(if negative then -v else v)
  }

  /** A string of digits is its own longest digit prefix. */
  lemma {:induction false} DigitPrefixOfDigits(s: string, radix: nat)
    requires forall k :: 0 <= k < |s| ==> DigitValue(s[k], radix).Some?
    ensures DigitPrefix(s, radix) == s
  {
    if s != [] {
      DigitPrefixOfDigits(s[1..], radix);
      assert s == [s[0]] + s[1..];
    }
  }

  function DigitChar(d: nat): (c: char)
    requires d < 10
    ensures DigitValue(c, 10) == Some(d)
  {
    (d + '0' as nat) as char
  }

  /** Number.prototype.toString() for a non-negative integer. */
  function NatToString(n: nat): (s: string)
    ensures |s| >= 1
    ensures forall k :: 0 <= k < |s| ==> DigitValue(s[k], 10).Some?
    ensures n >= 10 ==> s[0] != '0'
    ensures n < 10 ==> |s| == 1
  {
    if n < 10 then [DigitChar(n)] else NatToString(n / 10) + [DigitChar(n % 10)]
  }

  lemma {:induction false} DigitsValueOfToString(n: nat)
    ensures DigitsValue(NatToString(n), 10) == n
  {
    var s := NatToString(n);
    if n >= 10 {
      DigitsValueOfToString(n / 10);
      assert s[..|s| - 1] == NatToString(n / 10);
    } else {
      assert s[..0] == [];
    }
  }

  /** parseInt reads back what toString writes. */
  lemma ParseIntOfToString(n: nat)
    ensures ParseInt(NatToString(n)) == Some(n)
  {
    var s := NatToString(n);
    DropSpacesOfDigits(s);
    assert SplitSign(s) == (false, s);
    assert SplitRadix(s) == (10, s);
    DigitPrefixOfDigits(s, 10);
    DigitsValueOfToString(n);
  }

  /** A string that starts with a digit has no leading white space to skip. */
  lemma DropSpacesOfDigits(s: string)
    requires |s| >= 1 && DigitValue(s[0], 10).Some?
    ensures DropSpaces(s) == s
  {
    assert !JsSpace(s[0]);
  }

  // ---------------------------------------------------------------------
  // beforeEach

  datatype Decision = Proceed | Redirect(path: string)

  /** The role the guard compares with: parseInt of the stored role, "0" when none is stored. */
  function UserRole(storedRole: Option<string>): (role: Option<int>)
    ensures storedRole.None? || storedRole == Some("") ==> role == Some(0)
    ensures storedRole.Some? && storedRole.value != "" ==> role == ParseInt(storedRole.value)
  {
    ParseIntOfToString(0);
    assert NatToString(0) == "0";
    ParseInt(if storedRole.None? || storedRole.value == "" then "0" else storedRole.value)
  }

  /**
   * beforeEach: a route that requires authentication and no token (null or
   * "") goes to "/login"; otherwise a route with a role other than the
   * user's (a NaN role never matches) goes to "/"; everything else proceeds.
   */
  function Guard(meta: Meta, token: Option<string>, storedRole: Option<string>): (d: Decision)
    ensures meta.requiresAuth && (token.None? || token.value == "") ==> d == Redirect("/login")
    ensures !(meta.requiresAuth && (token.None? || token.value == ""))
            ==> (d == Redirect("/") <==> meta.role.Some? && meta.role.value != 0 && UserRole(storedRole) != meta.role)
    ensures d.Redirect? ==> d.path == "/login" || d.path == "/"
    ensures meta == Public ==> d == Proceed
  {
    var noToken := token.None? || token.value == "";
    if meta.requiresAuth && noToken then Redirect("/login")
    else if meta.role.Some? && meta.role.value != 0 && UserRole(storedRole) != meta.role then Redirect("/")
    else Proceed
  }

  /** Without a stored role the user counts as role 0. */
  lemma NoStoredRoleIsZero()
    ensures UserRole(None) == Some(0) && UserRole(Some("")) == Some(0)
  {
    ParseIntOfToString(0);
    assert NatToString(0) == "0";
  }

  /** A signed-in user whose stored role is the code n reaches a role-n route. */
  lemma StoredCodeOpensItsRoutes(n: nat, token: string, k: nat)
    requires token != "" && k < |Routes| && Routes[k].meta.role == Some(n)
    ensures Guard(Routes[k].meta, Some(token), Some(NatToString(n))) == Proceed
  {
    ParseIntOfToString(n);
  }

  /** The admin dashboard is the route with role 2. */
  lemma AdminRouteIsAdmin()
    ensures Routes[20].name == "AdminDashboard" && Routes[20].meta == Admin
  {
  }

  /**
   * The stored role is the role code of a UserDTO, and neither conversion
   * yields 2: whoever signs in, the admin route sends them back to "/".
   */
  lemma AdminRouteUnreachable(u: Users.User, token: Option<string>)
    ensures Guard(Admin, token, Some(NatToString(Users.ControllerRoleCode(u.roles)))) != Proceed
    ensures Guard(Admin, token, Some(NatToString(Users.ServiceRoleCode(u.roles)))) != Proceed
  {
    StoredCodeIsNotAdmin(Users.ControllerRoleCode(u.roles), token);
    StoredCodeIsNotAdmin(Users.ServiceRoleCode(u.roles), token);
  }

  lemma StoredCodeIsNotAdmin(code: int, token: Option<string>)
    requires code == 0 || code == 1
    ensures Guard(Admin, token, Some(NatToString(code))) != Proceed
  {
    ParseIntOfToString(code);
    assert UserRole(Some(NatToString(code))) == Some(code);
  }
}
