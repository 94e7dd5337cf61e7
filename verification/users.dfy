/**
 * Users: registration with its role mapping, the two User-to-UserDTO
 * conversions (service and controller), CustomUserDetails, and
 * updateUserInfo with its avatar data-URI handling.
 */
module Users {
  import opened Wrappers
  import opened JavaStrings
  import opened JavaLists
  import opened ResultCodes

  const SellerRole: string := "ROLE_SELLER"
  const BuyerRole: string := "ROLE_BUYER"

  /**
   * A user row. `roles` lists the names of the user's roles in the order
   * the role set's iterator yields them; gender and birthday are kept
   * abstract (birthday as a day number).
   */
  datatype User = User(
    id: nat,
    username: string,
    password: string,
    nickname: Option<string>,
    email: string,
    phone: string,
    country: string,
    avatar: Option<string>,
    gender: Option<int>,
    birthday: Option<int>,
    roles: seq<string>)

  /** UserDTO: everything but the password and the role objects, plus the role code. */
  datatype UserDto = UserDto(
    id: nat,
    username: string,
    nickname: Option<string>,
    email: string,
    phone: string,
    country: string,
    avatar: Option<string>,
    role: Option<int>,
    gender: Option<int>,
    birthday: Option<int>)

  /** The users table in insertion order, the role names of the roles table, the next id. */
  datatype UserState = UserState(users: seq<User>, roleNames: set<string>, nextId: nat)

  /** BeanUtils.copyProperties(user, dto, "roles", "password"); the role code is set separately. */
  function CopyToDto(u: User, role: Option<int>): (d: UserDto)
    ensures d.id == u.id && d.username == u.username && d.email == u.email && d.role == role
  {
    UserDto(u.id, u.username, u.nickname, u.email, u.phone, u.country, u.avatar, role, u.gender, u.birthday)
  }

  // ---------------------------------------------------------------------
  // Role codes

  /** The role register assigns for the DTO's role code: 1 is a seller, anything else (null included) a buyer. */
  function TargetRole(code: Option<int>): (name: string)
    ensures name == SellerRole <==> code == Some(1)
    ensures name == SellerRole || name == BuyerRole
  {
    if code.Some? && code.value == 1 then SellerRole else BuyerRole
  }

  /** UserServiceImpl's code: 1 iff the first role equals ROLE_SELLER ignoring case, else 0. */
  function ServiceRoleCode(roles: seq<string>): (code: int)
    ensures code == 1 <==> |roles| > 0 && ToLower(roles[0]) == ToLower(SellerRole)
    ensures code == 0 || code == 1
  {
    if |roles| > 0 && EqualsIgnoreCase(SellerRole, roles[0]) then 1 else 0
  }

  /** UserController's code: 1 iff some role is exactly ROLE_SELLER, else 0. */
  function ControllerRoleCode(roles: seq<string>): (code: int)
    ensures code == 1 <==> SellerRole in roles
    ensures code == 0 || code == 1
  {
    if exists k :: 0 <= k < |roles| && roles[k] == SellerRole then 1 else 0
  }

  /** convertUserToUserDTO in UserServiceImpl; null gives null. */
  function ServiceUserDto(u: Option<User>): (d: Option<UserDto>)
    ensures d.None? <==> u.None?
    ensures d.Some? ==> d.value == CopyToDto(u.value, Some(ServiceRoleCode(u.value.roles)))
  {
    if u.None? then None else Some(CopyToDto(u.value, Some(ServiceRoleCode(u.value.roles))))
  }

  /** convertUserToUserDTO in UserController; null gives null. */
  function ControllerUserDto(u: Option<User>): (d: Option<UserDto>)
    ensures d.None? <==> u.None?
    ensures d.Some? ==> d.value == CopyToDto(u.value, Some(ControllerRoleCode(u.value.roles)))
  {
    if u.None? then None else Some(CopyToDto(u.value, Some(ControllerRoleCode(u.value.roles))))
  }

  /** Neither conversion depends on the password, and neither yields a code other than 0 or 1. */
  lemma ConversionsHidePassword(u: User, password: string)
    ensures ServiceUserDto(Some(u.(password := password))) == ServiceUserDto(Some(u))
    ensures ControllerUserDto(Some(u.(password := password))) == ControllerUserDto(Some(u))
    ensures ServiceUserDto(Some(u)).value.role.value in {0, 1}
    ensures ControllerUserDto(Some(u)).value.role.value in {0, 1}
  {
  }

  /** For a user with one role spelled exactly, the two conversions agree. */
  lemma ConversionsAgreeOnOneRole(u: User)
    requires |u.roles| <= 1
    requires |u.roles| == 1 ==> u.roles[0] == SellerRole || ToLower(u.roles[0]) != ToLower(SellerRole)
    ensures ServiceUserDto(Some(u)) == ControllerUserDto(Some(u))
  {
  }

  /** They can disagree: a seller whose first role is the buyer role, or a lower-case role name. */
  lemma ConversionsCanDisagree(u: User)
    ensures ServiceRoleCode([BuyerRole, SellerRole]) == 0 && ControllerRoleCode([BuyerRole, SellerRole]) == 1
    ensures ServiceRoleCode(["role_seller"]) == 1 && ControllerRoleCode(["role_seller"]) == 0
  {
    assert [BuyerRole, SellerRole][1] == SellerRole;
    assert ToLower(BuyerRole)[5] == 'b';
    assert ToLower(SellerRole)[5] == 's';
    assert ToLower("role_seller") == ToLower(SellerRole);
  }

  // ---------------------------------------------------------------------
  // CustomUserDetails

  /** CustomUserDetails wraps a non-null user. */
  datatype UserDetails = UserDetails(user: User)

  /** The constructor rejects a null user. */
  function NewUserDetails(u: Option<User>): (r: Result<UserDetails, Failure>)
    ensures r.Err? <==> u.None?
    ensures r.Err? ==> r.error == IllegalArgument
    ensures r.Ok? ==> r.value.user == u.value
  {
    if u.None? then Err(IllegalArgument) else Ok(UserDetails(u.value))
  }

  /** getAuthorities: the names of the user's roles, empty when there are none. */
  function Authorities(d: UserDetails): (a: set<string>)
    ensures a == {} <==> d.user.roles == []
    ensures forall r :: r in a <==> r in d.user.roles
  {
    var a := set k | 0 <= k < |d.user.roles| :: d.user.roles[k];
    assert d.user.roles != [] ==> d.user.roles[0] in a;
    a
  }

  /** getSellerId: the user's id exactly when ROLE_SELLER is among the authorities. */
  function SellerId(d: UserDetails): (r: Option<nat>)
    ensures r.Some? <==> SellerRole in Authorities(d)
    ensures r.Some? ==> r.value == d.user.id
  {
    if SellerRole in Authorities(d) then Some(d.user.id) else None
  }

  /** The security layer and UserController agree on who is a seller. */
  lemma SellerIdMatchesControllerRole(d: UserDetails)
    ensures SellerId(d).Some? <==> ControllerRoleCode(d.user.roles) == 1
  {
  }

  /** equals: two details are equal when their usernames are. */
  predicate DetailsEqual(a: UserDetails, b: UserDetails) {
    a.user.username == b.user.username
  }

  const TwoTo32: int := 0x1_0000_0000

  /** The unsigned 32-bit accumulator of String.hashCode: h := 31·h + c, wrapping. */
  function HashAccumulator(s: string): (h: int)
    ensures 0 <= h < TwoTo32
  {
    if s == [] then 0 else (31 * HashAccumulator(s[..|s| - 1]) + s[|s| - 1] as int) % TwoTo32
  }

  /** String.hashCode for characters of the Basic Multilingual Plane, as a signed 32-bit int. */
  function StringHashCode(s: string): (h: int)
    ensures -0x8000_0000 <= h < 0x8000_0000
    ensures h % TwoTo32 == HashAccumulator(s)
  {
    var u := HashAccumulator(s);
    if u >= 0x8000_0000 then u - TwoTo32 else u
  }

  /** hashCode: the username's hash. */
  function DetailsHashCode(d: UserDetails): int {
    StringHashCode(d.user.username)
  }

  /** equals is an equivalence and equal details hash alike, whatever else differs. */
  lemma DetailsEqualityLaws(a: UserDetails, b: UserDetails, c: UserDetails)
    ensures DetailsEqual(a, a)
    ensures DetailsEqual(a, b) ==> DetailsEqual(b, a)
    ensures DetailsEqual(a, b) && DetailsEqual(b, c) ==> DetailsEqual(a, c)
    ensures DetailsEqual(a, b) ==> DetailsHashCode(a) == DetailsHashCode(b)
    ensures DetailsEqual(a, UserDetails(a.user.(id := a.user.id + 1, roles := [])))
  {
  }

  /** The hash wraps: "a" hashes to 97, "ab" to 3105, and six 'z's to a negative number. */
  lemma StringHashExamples()
    ensures StringHashCode("a") == 97
    ensures StringHashCode("ab") == 3105
    ensures StringHashCode("zzzzzz") == 3609181632 - TwoTo32
  {
    assert "ab"[..1] == "a";
    assert "zz"[..1] == "z";
    assert "zzz"[..2] == "zz";
    assert "zzzz"[..3] == "zzz";
    assert "zzzzz"[..4] == "zzzz";
    assert "zzzzzz"[..5] == "zzzzz";
    assert HashAccumulator("z") == 122;
    assert HashAccumulator("zz") == 3904;
    assert HashAccumulator("zzz") == 121146;
    assert HashAccumulator("zzzz") == 3755648;
    assert HashAccumulator("zzzzz") == 116425210;
  }

  // ---------------------------------------------------------------------
  // User.addRole and User.removeRole

  /** The role names other than x, in their order. */
  function Without(names: seq<string>, x: string): (r: seq<string>)
    ensures forall n :: n in r <==> n in names && n != x
    ensures |r| <= |names|
  {
    if names == [] then [] else (if names[0] == x then [] else [names[0]]) + Without(names[1..], x)
  }

  lemma {:induction false} WithoutAbsent(names: seq<string>, x: string)
    requires x !in names
    ensures Without(names, x) == names
  {
    if names != [] {
      WithoutAbsent(names[1..], x);
      assert names == [names[0]] + names[1..];
    }
  }

  lemma {:induction false} WithoutAppend(a: seq<string>, b: seq<string>, x: string)
    ensures Without(a + b, x) == Without(a, x) + Without(b, x)
  {
    if a != [] {
      WithoutAppend(a[1..], b, x);
      assert (a + b)[1..] == a[1..] + b;
    } else {
      assert a + b == b;
    }
  }

  /**
   * addRole: the role joins the user's role set, which already holding it
   * leaves as it was; a new role is placed last in the iteration order.
   * Nothing but the roles changes.
   */
  function AddRole(u: User, role: string): (r: User)
    ensures r == u.(roles := r.roles)
    ensures forall n :: n in r.roles <==> n in u.roles || n == role
    ensures role in u.roles ==> r == u
  {
    if role in u.roles then u else u.(roles := u.roles + [role])
  }

  /** removeRole: the role leaves the user's role set; nothing else changes. */
  function RemoveRole(u: User, role: string): (r: User)
    ensures r == u.(roles := r.roles)
    ensures forall n :: n in r.roles <==> n in u.roles && n != role
  {
    u.(roles := Without(u.roles, role))
  }

  /** Removing a role just added restores the user; removing an absent role changes nothing. */
  lemma AddThenRemoveRole(u: User, role: string)
    requires role !in u.roles
    ensures RemoveRole(AddRole(u, role), role) == u
    ensures RemoveRole(u, role) == u
  {
    WithoutAppend(u.roles, [role], role);
    WithoutAbsent(u.roles, role);
  }

  /** Granting ROLE_SELLER makes the user a seller to the security layer; revoking it makes them not one. */
  lemma SellerRoleDecidesSellerId(u: User)
    ensures SellerId(UserDetails(AddRole(u, SellerRole))) == Some(u.id)
    ensures SellerId(UserDetails(RemoveRole(u, SellerRole))).None?
  {
  }

  // ---------------------------------------------------------------------
  // register

  /** The fields of the registration request the service reads. */
  datatype RegisterDto = RegisterDto(
    username: Option<string>,
    email: Option<string>,
    phone: Option<string>,
    country: Option<string>,
    password: Option<string>,
    role: Option<int>)

  predicate UsernameTaken(st: UserState, username: Option<string>) {
    username.Some? && exists k :: 0 <= k < |st.users| && st.users[k].username == username.value
  }

  predicate EmailTaken(st: UserState, email: Option<string>) {
    email.Some? && exists k :: 0 <= k < |st.users| && st.users[k].email == email.value
  }

  /** Usernames (a UNIQUE column) and emails (kept unique by the service) identify users; ids are unique. */
  predicate Valid(st: UserState) {
    (forall i, j :: (0 <= i < |st.users| && 0 <= j < |st.users| && st.users[i].username == st.users[j].username) ==> i == j)
    && (forall i, j :: (0 <= i < |st.users| && 0 <= j < |st.users| && st.users[i].email == st.users[j].email) ==> i == j)
    && (forall i :: 0 <= i < |st.users| ==> st.users[i].id < st.nextId)
  }

  const EmailRegistered: Failure := Api(ApiExceptionOfMessage("邮箱已被注册"))
  const EmailTakenOnUpdate: Failure := Api(ApiExceptionOfMessage("更新失败：邮箱已被其他用户注册"))

  /**
   * register: a taken username gives USER_EXISTS, a taken email a
   * VALIDATION_ERROR-coded ApiException; the password must be present to
   * be encoded; the role is looked up by name and created when missing;
   * null NOT NULL columns fail the save. The nickname defaults to the
   * username and exactly one role is assigned.
   */
  function Register(st: UserState, dto: RegisterDto, encode: string -> string): (r: Result<(UserState, UserDto), Failure>)
    ensures UsernameTaken(st, dto.username) ==> r == Err(Fail(UserExists))
    ensures !UsernameTaken(st, dto.username) && EmailTaken(st, dto.email) ==> r == Err(EmailRegistered)
    ensures r.Ok? <==> (!UsernameTaken(st, dto.username) && !EmailTaken(st, dto.email) && dto.password.Some?
                        && dto.username.Some? && dto.email.Some? && dto.phone.Some? && dto.country.Some?)
    ensures r.Ok? ==> var (st2, d) := r.value;
      |st2.users| == |st.users| + 1 && st2.users[..|st.users|] == st.users && st2.nextId == st.nextId + 1
      && var u := st2.users[|st.users|];
      u.id == st.nextId && u.username == dto.username.value && u.nickname == dto.username
      && u.password == encode(dto.password.value) && u.roles == [TargetRole(dto.role)] && u.gender == Some(0)
      && st2.roleNames == st.roleNames + {TargetRole(dto.role)}
      && Some(d) == ServiceUserDto(Some(u))
  {
    if UsernameTaken(st, dto.username) then Err(Fail(UserExists))
    else if EmailTaken(st, dto.email) then Err(EmailRegistered)
    else if dto.password.None? then Err(IllegalArgument)
    else if dto.username.None? || dto.email.None? || dto.phone.None? || dto.country.None? then Err(ConstraintViolation)
    else
      var role := TargetRole(dto.role);
      var u := User(st.nextId, dto.username.value, encode(dto.password.value), dto.username, dto.email.value,
                    dto.phone.value, dto.country.value, None, Some(0), None, [role]);
      var st2 := UserState(st.users + [u], st.roleNames + {role}, st.nextId + 1);
      Ok((st2, CopyToDto(u, Some(ServiceRoleCode(u.roles)))))
  }

  /** The returned role code is the requested one when it is 1, else 0; both conversions say so. */
  lemma RegisterRoleRoundTrip(st: UserState, dto: RegisterDto, encode: string -> string)
    requires Register(st, dto, encode).Ok?
    ensures Register(st, dto, encode).value.1.role == Some(if dto.role == Some(1) then 1 else 0)
    ensures var st2 := Register(st, dto, encode).value.0;
      ControllerUserDto(Some(st2.users[|st2.users| - 1])) == Some(Register(st, dto, encode).value.1)
  {
    assert ToLower(SellerRole) == ToLower(SellerRole);
    assert ToLower(BuyerRole)[5] == 'b' && ToLower(SellerRole)[5] == 's';
  }

  /** Registration keeps usernames and emails unique. */
  lemma RegisterKeepsValid(st: UserState, dto: RegisterDto, encode: string -> string)
    requires Valid(st) && Register(st, dto, encode).Ok?
    ensures Valid(Register(st, dto, encode).value.0)
  {
  }

  // ---------------------------------------------------------------------
  // updateUserInfo

  datatype UserUpdateDto = UserUpdateDto(
    nickname: Option<string>,
    email: Option<string>,
    phone: Option<string>,
    country: Option<string>,
    avatar: Option<string>,
    gender: Option<int>,
    birthday: Option<int>)

  /**
   * What the avatar upload relies on outside the code: whether the Base64
   * decoder accepts the payload, the message of the IllegalArgumentException
   * it throws when it does not, the random UUID, and the URL the file
   * service returns for a file name (None when it fails).
   */
  datatype AvatarEnv = AvatarEnv(decodes: string -> bool, decodeError: string -> string, uuid: string,
                                 upload: string -> Option<string>)

  /** The message the split check's IllegalArgumentException carries. */
  const BadDataUri: string := "无效的Base64数据URI格式"

  /** An IllegalArgumentException caught while reading the data URI, reported as VALIDATION_ERROR. */
  function InvalidAvatar(detail: string): Failure {
    FailWith(ValidationError, "无效的头像数据: " + detail)
  }

  /** Any other exception of the avatar block, reported as UPLOAD_FAILED. */
  const AvatarUploadFailed: Failure := FailWith(UploadFailed, "头像上传处理失败，请稍后再试。")

  /** The VALIDATION_ERROR thrown for a MIME type without an extension. */
  function UnsupportedImageType(mime: string): Failure {
    FailWith(ValidationError, "不支持的图片类型: " + mime)
  }

  /** A character the file-name pattern keeps: [a-zA-Z0-9.-]. */
  predicate FileNameChar(c: char) {
    ('a' <= c <= 'z') || ('A' <= c <= 'Z') || ('0' <= c <= '9') || c == '.' || c == '-'
  }

  /** username.replaceAll("[^a-zA-Z0-9.-]", "_"). */
  function SanitizeUsername(s: string): (r: string)
    ensures |r| == |s|
    ensures forall k :: 0 <= k < |s| ==> r[k] == (if FileNameChar(s[k]) then s[k] else '_')
  {
    seq(|s|, k requires 0 <= k < |s| => if FileNameChar(s[k]) then s[k] else '_')
  }

  /** The result is a safe file name part; sanitizing twice is sanitizing once; safe names are kept. */
  lemma SanitizeLaws(s: string)
    ensures forall k :: 0 <= k < |s| ==> FileNameChar(SanitizeUsername(s)[k]) || SanitizeUsername(s)[k] == '_'
    ensures SanitizeUsername(SanitizeUsername(s)) == SanitizeUsername(s)
    ensures (forall k :: 0 <= k < |s| ==> FileNameChar(s[k])) ==> SanitizeUsername(s) == s
  {
  }

  /** The extension for a MIME type, compared in lower case; None for anything unsupported. */
  function MimeExtension(mime: string): (r: Option<string>)
    ensures r.Some? <==> ToLower(mime) in ["image/jpeg", "image/jpg", "image/png", "image/gif"]
  {
    var m := ToLower(mime);
    if m == "image/jpeg" || m == "image/jpg" then Some(".jpg")
    else if m == "image/png" then Some(".png")
    else if m == "image/gif" then Some(".gif")
    else None
  }

  /** The MIME type of the metadata part: between the first ':' and the first ';'. */
  function MimeType(metadata: string): (r: Option<string>)
    ensures r.Some? <==> ';' in metadata && (':' in metadata ==> IndexOf(metadata, ':').value < IndexOf(metadata, ';').value)
  {
    var begin := match IndexOf(metadata, ':') case Some(i) => i + 1 case None => 0;
    match IndexOf(metadata, ';')
    case None => None
    case Some(end) => if begin <= end then Some(metadata[begin..end]) else None
  }

  /** The steps shared by both versions: split into exactly two parts, decode the payload, read the MIME type. */
  function AvatarMime(data: string, env: AvatarEnv): (r: Result<string, Failure>)
    ensures |Split(data, ',')| != 2 ==> r == Err(InvalidAvatar(BadDataUri))
    ensures |Split(data, ',')| == 2 && !env.decodes(Split(data, ',')[1])
            ==> r == Err(InvalidAvatar(env.decodeError(Split(data, ',')[1])))
    ensures |Split(data, ',')| == 2 && env.decodes(Split(data, ',')[1]) && MimeType(Split(data, ',')[0]).None?
            ==> r == Err(AvatarUploadFailed)
    ensures r.Ok? ==> Some(r.value) == MimeType(Split(data, ',')[0])
  {
    var parts := Split(data, ',');
    if |parts| != 2 then Err(InvalidAvatar(BadDataUri))
    else if !env.decodes(parts[1]) then Err(InvalidAvatar(env.decodeError(parts[1])))
    else match MimeType(parts[0])
      case None => Err(AvatarUploadFailed)
      case Some(mime) => Ok(mime)
  }

  /**
   * The avatar data-URI handling as written: the VALIDATION_ERROR thrown
   * for an unsupported type is caught by the generic handler and reported
   * as UPLOAD_FAILED. The result is the extension.
   */
  function AvatarExtension(data: string, env: AvatarEnv): (r: Result<string, Failure>)
    ensures AvatarMime(data, env).Err? ==> r == AvatarMime(data, env)
    ensures AvatarMime(data, env).Ok? ==> (r.Ok? <==> MimeExtension(AvatarMime(data, env).value).Some?)
    ensures AvatarMime(data, env).Ok? && r.Err? ==> r.error == AvatarUploadFailed
  {
    var mime :- AvatarMime(data, env);
    match MimeExtension(mime)
    case Some(ext) => Ok(ext)
    case None => Err(AvatarUploadFailed)
  }

  /** The avatar handling with the unsupported-type error reaching the caller as thrown. */
  function AvatarExtensionFixed(data: string, env: AvatarEnv): (r: Result<string, Failure>)
    ensures AvatarMime(data, env).Err? ==> r == AvatarMime(data, env)
    ensures AvatarMime(data, env).Ok? && MimeExtension(AvatarMime(data, env).value).None?
            ==> r == Err(UnsupportedImageType(AvatarMime(data, env).value))
    ensures r.Ok? <==> AvatarExtension(data, env).Ok?
    ensures r.Ok? ==> r == AvatarExtension(data, env)
  {
    var mime :- AvatarMime(data, env);
    match MimeExtension(mime)
    case Some(ext) => Ok(ext)
    case None => Err(UnsupportedImageType(mime))
  }

  /** How a "metadata,payload" string splits on the comma. */
  lemma {:induction false} SplitAtComma(meta: string, payload: string)
    requires ',' !in meta && ',' !in payload
    ensures payload != "" ==> Split(meta + [','] + payload, ',') == [meta, payload]
    ensures payload == "" ==> |Split(meta + [','] + payload, ',')| <= 1
  {
    var data := meta + [','] + payload;
    assert data[|meta|] == ',';
    FieldsCons(meta, ',', payload);
    FieldsNoSep(payload, ',');
    assert Fields(data, ',') == [meta, payload];
  }

  /**
   * A well-formed data URI whose payload decodes but whose type is not
   * supported is reported as an upload failure, not a validation error.
   */
  lemma UnsupportedAvatarTypeIsUploadFailed(meta: string, payload: string, env: AvatarEnv)
    requires ',' !in meta && ',' !in payload && payload != ""
    requires env.decodes(payload)
    requires MimeType(meta).Some? && MimeExtension(MimeType(meta).value).None?
    ensures AvatarExtension(meta + [','] + payload, env) == Err(AvatarUploadFailed)
    ensures AvatarExtensionFixed(meta + [','] + payload, env) == Err(UnsupportedImageType(MimeType(meta).value))
  {
    SplitAtComma(meta, payload);
  }

  /** image/bmp is such a type. */
  lemma BmpIsUnsupported()
    ensures MimeExtension("image/bmp").None?
  {
    assert ToLower("image/bmp")[6] == 'b';
  }

  /** A data URI whose payload is empty splits into at most one part and is rejected as invalid. */
  lemma EmptyPayloadIsValidationError(meta: string, env: AvatarEnv)
    requires ',' !in meta
    ensures AvatarExtension(meta + [','], env) == Err(InvalidAvatar(BadDataUri))
  {
    SplitAtComma(meta, "");
    assert meta + [','] + "" == meta + [','];
  }

  /** The file name the avatar is stored under. */
  function AvatarFileName(username: string, uuid: string, extension: string): string {
    "avatar_" + SanitizeUsername(username) + "_" + uuid + extension
  }

  /**
   * The new avatar column: null and "" keep the old value; a string not
   * starting with "data:image" is stored as given; a data URI is decoded,
   * uploaded under AvatarFileName, and its URL stored.
   */
  function NewAvatar(current: Option<string>, requested: Option<string>, username: string, env: AvatarEnv,
                     extension: (string, AvatarEnv) -> Result<string, Failure>): (r: Result<Option<string>, Failure>)
    ensures requested.None? || requested == Some("") ==> r == Ok(current)
    ensures requested.Some? && requested.value != "" && !StartsWith(requested.value, "data:image") ==> r == Ok(requested)
    ensures requested.Some? && StartsWith(requested.value, "data:image") && extension(requested.value, env).Err?
      ==> r == Err(extension(requested.value, env).error)
    ensures requested.Some? && StartsWith(requested.value, "data:image") && extension(requested.value, env).Ok? ==>
      var stored := env.upload(AvatarFileName(username, env.uuid, extension(requested.value, env).value));
      r == if stored.Some? then Ok(Some(stored.value)) else Err(AvatarUploadFailed)
  {
    if requested.None? || requested.value == "" then Ok(current)
    else if !StartsWith(requested.value, "data:image") then Ok(requested)
    else
      var ext :- extension(requested.value, env);
      match env.upload(AvatarFileName(username, env.uuid, ext))
      case None => Err(AvatarUploadFailed)
      case Some(url) => Ok(Some(url))
  }

  /**
   * updateUserInfo for the authenticated username: non-null fields
   * overwrite; an email already registered to someone else is refused; the
   * returned DTO is a plain property copy, so its role is null.
   */
  function UpdateUserInfo(st: UserState, caller: Option<string>, dto: UserUpdateDto, env: AvatarEnv): (r: Result<(UserState, UserDto), Failure>)
    ensures caller.None? ==> r == Err(Fail(Unauthorized))
    ensures caller.Some? && IndexWhere(st.users, (u: User) => u.username == caller.value).None?
            ==> r == Err(FailWith(UserNotExists, "用户 " + caller.value + " 不存在"))
    ensures r.Ok? ==> var (st2, d) := r.value;
      var k := IndexWhere(st.users, (u: User) => u.username == caller.value).value;
      var u := st.users[k];
      |st2.users| == |st.users| && st2.users == st.users[k := st2.users[k]] && st2.nextId == st.nextId
      && d == CopyToDto(st2.users[k], None)
      && st2.users[k].id == u.id && st2.users[k].username == u.username && st2.users[k].password == u.password
      && st2.users[k].roles == u.roles
      && st2.users[k].email == dto.email.GetOr(u.email) && st2.users[k].phone == dto.phone.GetOr(u.phone)
      && st2.users[k].country == dto.country.GetOr(u.country)
      && st2.users[k].nickname == (if dto.nickname.Some? then dto.nickname else u.nickname)
      && st2.users[k].gender == (if dto.gender.Some? then dto.gender else u.gender)
      && st2.users[k].birthday == (if dto.birthday.Some? then dto.birthday else u.birthday)
      && (dto.email.Some? && dto.email.value != u.email ==> !EmailTaken(st, dto.email))
      && NewAvatar(u.avatar, dto.avatar, caller.value, env, AvatarExtension).Ok?
      && st2.users[k].avatar == NewAvatar(u.avatar, dto.avatar, caller.value, env, AvatarExtension).value
    ensures caller.Some? && IndexWhere(st.users, (u: User) => u.username == caller.value).Some? ==>
      var u := st.users[IndexWhere(st.users, (u: User) => u.username == caller.value).value];
      var conflict := dto.email.Some? && dto.email.value != u.email && EmailTaken(st, dto.email);
      var avatar := NewAvatar(u.avatar, dto.avatar, caller.value, env, AvatarExtension);
      && (conflict ==> r == Err(EmailTakenOnUpdate))
      && (!conflict && avatar.Err? ==> r == Err(avatar.error))
      && (r.Ok? <==> !conflict && avatar.Ok?)
  {
    if caller.None? then Err(Fail(Unauthorized))
    else match IndexWhere(st.users, (u: User) => u.username == caller.value)
      case None => Err(FailWith(UserNotExists, "用户 " + caller.value + " 不存在"))
      case Some(k) =>
        var u := st.users[k];
        if dto.email.Some? && u.email != dto.email.value && EmailTaken(st, dto.email) then Err(EmailTakenOnUpdate)
        else
          var avatar :- NewAvatar(u.avatar, dto.avatar, caller.value, env, AvatarExtension);
          var u2 := u.(nickname := if dto.nickname.Some? then dto.nickname else u.nickname,
                       email := dto.email.GetOr(u.email), phone := dto.phone.GetOr(u.phone),
                       country := dto.country.GetOr(u.country),
                       gender := if dto.gender.Some? then dto.gender else u.gender,
                       birthday := if dto.birthday.Some? then dto.birthday else u.birthday,
                       avatar := avatar);
          Ok((st.(users := st.users[k := u2]), CopyToDto(u2, None)))
  }

  /** An update keeps usernames and emails unique. */
  lemma UpdateUserInfoKeepsValid(st: UserState, caller: Option<string>, dto: UserUpdateDto, env: AvatarEnv)
    requires Valid(st) && UpdateUserInfo(st, caller, dto, env).Ok?
    ensures Valid(UpdateUserInfo(st, caller, dto, env).value.0)
  {
  }

  /** Keeping one's own email is never a conflict; an empty avatar string leaves the avatar alone. */
  lemma UpdateOwnEmailAndEmptyAvatar(st: UserState, caller: string, dto: UserUpdateDto, env: AvatarEnv)
    requires IndexWhere(st.users, (u: User) => u.username == caller).Some?
    requires dto.email == Some(st.users[IndexWhere(st.users, (u: User) => u.username == caller).value].email)
    requires dto.avatar == Some("")
    ensures UpdateUserInfo(st, Some(caller), dto, env).Ok?
    ensures var k := IndexWhere(st.users, (u: User) => u.username == caller).value;
      UpdateUserInfo(st, Some(caller), dto, env).value.0.users[k].avatar == st.users[k].avatar
  {
  }
}
