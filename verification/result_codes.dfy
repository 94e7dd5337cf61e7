/**
 * Business result codes, the `Result` envelope every endpoint returns,
 * `ApiException`, the exceptions the services throw, and the global
 * exception handler that turns them into HTTP responses.
 */
module ResultCodes {
  import opened Wrappers

  /** The nineteen constants of the ResultCode enum, in declaration order. */
  datatype ResultCode =
    | Success | Error | ValidationError | Unauthorized | Forbidden | NotFound
    | LoginError | UserExists | UserNotExists | OldPasswordError
    | UploadFailed
    | CategoryExists | CategoryNotExists
    | ProductNotExists | StockNotEnough
    | CartItemNotExists
    | OrderNotExists | OrderStatusError
    | Conflict
  {
    function Code(): int {
      match this
      case Success => 200
      case Error => 500
      case ValidationError => 400
      case Unauthorized => 401
      case Forbidden => 403
      case NotFound => 404
      case LoginError => 1001
      case UserExists => 1002
      case UserNotExists => 1003
      case OldPasswordError => 1004
      case UploadFailed => 1101
      case CategoryExists => 1201
      case CategoryNotExists => 1202
      case ProductNotExists => 1301
      case StockNotEnough => 1302
      case CartItemNotExists => 1401
      case OrderNotExists => 1501
      case OrderStatusError => 1502
      case Conflict => 409
    }

    function Message(): string {
      match this
      case Success => "成功"
      case Error => "服务器内部错误"
      case ValidationError => "参数验证错误"
      case Unauthorized => "未授权或登录已过期"
      case Forbidden => "禁止访问"
      case NotFound => "请求的资源不存在"
      case LoginError => "用户名或密码错误"
      case UserExists => "用户已存在"
      case UserNotExists => "用户不存在"
      case OldPasswordError => "原密码不正确"
      case UploadFailed => "文件上传失败"
      case CategoryExists => "分类名称已存在"
      case CategoryNotExists => "分类不存在"
      case ProductNotExists => "商品不存在"
      case StockNotEnough => "商品库存不足"
      case CartItemNotExists => "购物车商品不存在"
      case OrderNotExists => "订单不存在"
      case OrderStatusError => "订单状态错误，无法进行此操作"
      case Conflict => "资源冲突或操作不允许"
    }

    /** The family the enum's comments group the constant under. */
    function Family(): CodeFamily {
      match this
      case LoginError | UserExists | UserNotExists | OldPasswordError => UserFamily
      case UploadFailed => UploadFamily
      case CategoryExists | CategoryNotExists => CategoryFamily
      case ProductNotExists | StockNotEnough => ProductFamily
      case CartItemNotExists => CartFamily
      case OrderNotExists | OrderStatusError => OrderFamily
      case _ => HttpFamily
    }

    /** Codes that report a missing entity, judged by the constant's name. */
    predicate ReportsMissing() {
      this in {NotFound, UserNotExists, ProductNotExists, CategoryNotExists, CartItemNotExists, OrderNotExists}
    }

    /** Codes that report a duplicate or conflicting entity, judged by name. */
    predicate ReportsDuplicate() {
      this in {UserExists, CategoryExists, Conflict}
    }
  }

  datatype CodeFamily = HttpFamily | UserFamily | UploadFamily | CategoryFamily | ProductFamily | CartFamily | OrderFamily

  /** The numeric range the enum's comments reserve for each family. */
  function FamilyRange(f: CodeFamily): (int, int) {
    match f
    case HttpFamily => (100, 599)
    case UserFamily => (1000, 1099)
    case UploadFamily => (1100, 1199)
    case CategoryFamily => (1200, 1299)
    case ProductFamily => (1300, 1399)
    case CartFamily => (1400, 1499)
    case OrderFamily => (1500, 1599)
  }

  /** The constant with a given code, if any: the inverse of Code(). */
  function FromCode(code: int): (r: Option<ResultCode>)
    ensures r.Some? ==> r.value.Code() == code
  {
    match code
    case 200 => Some(Success)
    case 500 => Some(Error)
    case 400 => Some(ValidationError)
    case 401 => Some(Unauthorized)
    case 403 => Some(Forbidden)
    case 404 => Some(NotFound)
    case 1001 => Some(LoginError)
    case 1002 => Some(UserExists)
    case 1003 => Some(UserNotExists)
    case 1004 => Some(OldPasswordError)
    case 1101 => Some(UploadFailed)
    case 1201 => Some(CategoryExists)
    case 1202 => Some(CategoryNotExists)
    case 1301 => Some(ProductNotExists)
    case 1302 => Some(StockNotEnough)
    case 1401 => Some(CartItemNotExists)
    case 1501 => Some(OrderNotExists)
    case 1502 => Some(OrderStatusError)
    case 409 => Some(Conflict)
    case _ => None
  }

  /** Every constant is recovered from its code, so no two constants share one. */
  lemma CodesAreDistinct(a: ResultCode, b: ResultCode)
    ensures FromCode(a.Code()) == Some(a)
    ensures a.Code() == b.Code() ==> a == b
  {
  }

  /** Every code lies in the range its family's comment announces. */
  lemma CodesWithinFamilyRanges(rc: ResultCode)
    ensures FamilyRange(rc.Family()).0 <= rc.Code() <= FamilyRange(rc.Family()).1
    ensures rc.Family() == HttpFamily <==> rc.Code() < 1000
  {
  }

  // ---------------------------------------------------------------------
  // Result<T>: the response envelope

  datatype ApiResult<T> = ApiResult(code: int, message: string, data: Option<T>) {
    predicate IsSuccess() {
      code == Success.Code()
    }
  }

  function ResultSuccess<T>(): ApiResult<T> {
    ApiResult(Success.Code(), Success.Message(), None)
  }

  function ResultSuccessWith<T>(data: T): ApiResult<T> {
    ApiResult(Success.Code(), Success.Message(), Some(data))
  }

  function ResultSuccessMessage<T>(message: string, data: T): ApiResult<T> {
    ApiResult(Success.Code(), message, Some(data))
  }

  function ResultFail<T>(code: int, message: string): ApiResult<T> {
    ApiResult(code, message, None)
  }

  function ResultFailMessage<T>(message: string): ApiResult<T> {
    ApiResult(ValidationError.Code(), message, None)
  }

  function ResultError<T>(rc: ResultCode): ApiResult<T> {
    ApiResult(rc.Code(), rc.Message(), None)
  }

  function ResultErrorMessage<T>(rc: ResultCode, message: string): ApiResult<T> {
    ApiResult(rc.Code(), message, None)
  }

  function ResultNotFound<T>(message: string): ApiResult<T> {
    ApiResult(NotFound.Code(), message, None)
  }

  function ResultForbidden<T>(message: string): ApiResult<T> {
    ApiResult(Forbidden.Code(), message, None)
  }

  function ResultUnauthorized<T>(message: string): ApiResult<T> {
    ApiResult(Unauthorized.Code(), message, None)
  }

  function ResultValidationError<T>(message: string): ApiResult<T> {
    ApiResult(ValidationError.Code(), message, None)
  }

  /** The three success factories all report success; only the data and message differ. */
  lemma SuccessFactoriesSucceed<T>(message: string, data: T)
    ensures ResultSuccess<T>().IsSuccess() && ResultSuccess<T>().data.None?
    ensures ResultSuccessWith(data).IsSuccess() && ResultSuccessWith(data).data == Some(data)
    ensures ResultSuccessMessage(message, data).IsSuccess()
    ensures ResultSuccessMessage(message, data).message == message
    ensures ResultSuccessMessage(message, data).data == Some(data)
    ensures ResultSuccess<T>().message == ResultSuccessWith(data).message == Success.Message()
  {
  }

  /**
   * The failure factories never carry data, keep the code they are given,
   * and never look like a success unless handed code 200.
   */
  lemma FailureFactoriesCarryNoData<T>(code: int, rc: ResultCode, message: string)
    ensures var r := ResultFail<T>(code, message);
      r.data.None? && r.code == code && r.message == message && (r.IsSuccess() <==> code == 200)
    ensures var r := ResultError<T>(rc);
      r.data.None? && FromCode(r.code) == Some(rc) && r.message == rc.Message()
    ensures var r := ResultErrorMessage<T>(rc, message);
      r.data.None? && FromCode(r.code) == Some(rc) && r.message == message
    ensures var r := ResultFailMessage<T>(message);
      r.data.None? && FromCode(r.code) == Some(ValidationError) && !r.IsSuccess()
  {
  }

  /** The named shortcuts are the matching error codes with a custom message. */
  lemma ShortcutFactories<T>(message: string)
    ensures ResultNotFound<T>(message) == ResultErrorMessage(NotFound, message)
    ensures ResultForbidden<T>(message) == ResultErrorMessage(Forbidden, message)
    ensures ResultUnauthorized<T>(message) == ResultErrorMessage(Unauthorized, message)
    ensures ResultValidationError<T>(message) == ResultErrorMessage(ValidationError, message)
    ensures ResultNotFound<T>(message).code == 404 && ResultForbidden<T>(message).code == 403
    ensures ResultUnauthorized<T>(message).code == 401 && ResultValidationError<T>(message).code == 400
  {
  }

  // ---------------------------------------------------------------------
  // ApiException

  /** ApiException: an immutable (errorCode, message) pair. */
  datatype ApiException = ApiException(errorCode: int, message: string)

  /** new ApiException(message): the code defaults to VALIDATION_ERROR. */
  function ApiExceptionOfMessage(message: string): ApiException {
    ApiException(ValidationError.Code(), message)
  }

  /** new ApiException(resultCode): code and message of the constant. */
  function ApiExceptionOf(rc: ResultCode): ApiException {
    ApiException(rc.Code(), rc.Message())
  }

  /** new ApiException(resultCode, customMessage). */
  function ApiExceptionWithMessage(rc: ResultCode, message: string): ApiException {
    ApiException(rc.Code(), message)
  }

  // ---------------------------------------------------------------------
  // Exceptions the services throw

  /**
   * What a service call can throw. Only ApiException carries a business
   * code; the others are plain Java or JPA exceptions.
   */
  datatype Failure =
    | Api(e: ApiException)
    | Runtime             // java.lang.RuntimeException with a message
    | EntityNotFound      // jakarta.persistence.EntityNotFoundException
    | AccessDenied        // Spring Security AccessDeniedException
    | IllegalState        // java.lang.IllegalStateException
    | IllegalArgument     // java.lang.IllegalArgumentException
    | UnauthorizedAccess  // the project's UnauthorizedException
    | NullPointer         // unboxing a null Boolean
    | ConstraintViolation // a NOT NULL or UNIQUE column rejected on save
    | IO                  // java.io.IOException

  /** The failure of `throw new ApiException(rc)`. */
  function Fail(rc: ResultCode): Failure {
    Api(ApiExceptionOf(rc))
  }

  /** The failure of `throw new ApiException(rc, message)`. */
  function FailWith(rc: ResultCode, message: string): Failure {
    Api(ApiExceptionWithMessage(rc, message))
  }

  // ---------------------------------------------------------------------
  // GlobalExceptionHandler

  datatype Response = Response(status: int, body: ApiResult<()>)

  /** The HTTP status handleApiException picks for a business code. */
  function HttpStatusOf(code: int): (status: int)
    ensures status in {400, 401, 403, 404, 409, 500}
  {
    if code == LoginError.Code() || code == Unauthorized.Code() then 401
    else if code == ValidationError.Code() || code == OldPasswordError.Code() then 400
    else if code == UserExists.Code() || code == CategoryExists.Code() || code == Conflict.Code() then 409
    else if code == NotFound.Code() || code == UserNotExists.Code() || code == ProductNotExists.Code()
         || code == CategoryNotExists.Code() || code == CartItemNotExists.Code() || code == OrderNotExists.Code() then 404
    else if code == Forbidden.Code() then 403
    else if code == Error.Code() || code == UploadFailed.Code() then 500
    else 400
  }

  function HandleApiException(e: ApiException): Response {
    Response(HttpStatusOf(e.errorCode), ResultFail(e.errorCode, e.message))
  }

  /** handleGenericException: every other exception. */
  function HandleGenericException(): Response {
    Response(500, ResultError(Error))
  }

  /** The response the handler gives a failure: business codes carry their own code, all else is 500 ERROR. */
  function Handle(f: Failure): (r: Response)
    ensures f.Api? ==> r.status == HttpStatusOf(f.e.errorCode) && r.body.code == f.e.errorCode
                       && r.body.message == f.e.message && r.body.data.None?
    ensures !f.Api? ==> r.status == 500 && r.body.code == Error.Code() && r.body.data.None?
  {
    match f
    case Api(e) => HandleApiException(e)
    case _ => HandleGenericException()
  }

  /**
   * The status table read by meaning: missing entities give 404, duplicates
   * 409, authentication failures 401, FORBIDDEN 403, server-side failures
   * 500, and every remaining constant 400.
   */
  lemma StatusByMeaning(rc: ResultCode)
    ensures rc.ReportsMissing() <==> HttpStatusOf(rc.Code()) == 404
    ensures rc.ReportsDuplicate() <==> HttpStatusOf(rc.Code()) == 409
    ensures rc in {LoginError, Unauthorized} <==> HttpStatusOf(rc.Code()) == 401
    ensures rc == Forbidden <==> HttpStatusOf(rc.Code()) == 403
    ensures rc in {Error, UploadFailed} <==> HttpStatusOf(rc.Code()) == 500
    ensures rc in {ValidationError, OldPasswordError, StockNotEnough, OrderStatusError, Success}
            <==> HttpStatusOf(rc.Code()) == 400
  {
  }

  /** Codes that are HTTP statuses themselves map to that status, SUCCESS excepted. */
  lemma HttpCodesMapToThemselves(rc: ResultCode)
    requires rc.Family() == HttpFamily && rc != Success
    ensures HttpStatusOf(rc.Code()) == rc.Code()
  {
  }

  /** Codes that are no constant at all fall through to 400. */
  lemma UnknownCodesAreBadRequest(code: int)
    requires FromCode(code).None?
    ensures HttpStatusOf(code) == 400
  {
  }

  /**
   * An ApiException keeps its code and message in the body, carries no
   * data, and gets one of six statuses; everything else is a 500 with
   * ResultCode.ERROR.
   */
  lemma HandlerResponses(f: Failure)
    ensures var r := Handle(f);
      r.body.data.None? && r.status in {400, 401, 403, 404, 409, 500}
    ensures f.Api? ==> Handle(f).body.code == f.e.errorCode && Handle(f).body.message == f.e.message
    ensures !f.Api? ==> Handle(f).status == 500 && Handle(f).body.code == Error.Code()
                        && Handle(f).body.message == Error.Message()
  {
  }

  /** The four ApiException constructors, seen through the handler. */
  lemma ApiExceptionConstructors(rc: ResultCode, code: int, message: string)
    ensures var r := Handle(Api(ApiExceptionOfMessage(message)));
      r.status == 400 && r.body.code == 400 && r.body.message == message
    ensures var r := Handle(Api(ApiExceptionOf(rc)));
      r.status == HttpStatusOf(rc.Code()) && r.body == ResultError(rc)
    ensures var r := Handle(Api(ApiExceptionWithMessage(rc, message)));
      r.status == HttpStatusOf(rc.Code()) && r.body == ResultErrorMessage(rc, message)
    ensures var r := Handle(Api(ApiException(code, message)));
      r.body.code == code && r.body.message == message
  {
  }
}
