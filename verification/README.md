# Shopping mall core, modelled in Dafny

This project models the core of a shop. The backend is a Spring/JPA service layer and the web client is a Vue/Pinia app. The model covers these parts:

- **orders:** order placement as an all-or-nothing fold over the requested lines, with stock checks, line snapshots and the freight rule; cancellation with restocking; status overwrites and payment status;
- **carts:** one cart per user, one line per product, stock-checked quantities and selection flags;
- **bookkeeping per user:**
  - the default-address invariant and the repository's bulk updates;
  - coupon claim and use counters with inclusive time windows;
  - favourites;
  - comments, with their ';'-joined image list;
  - category name uniqueness;
- **pure helpers:**
  - the result-code table, the exception-to-HTTP mapping and the `Result`/`ApiException` factories;
  - the page count;
  - product sorting and query selection;
  - data-URI parsing (section 3 of RFC 2397) and image-list merging;
  - the user conversions and `CustomUserDetails`;
  - file URLs and path segments;
  - the phone-number validator's decision tree;
- **web client:** the cart store's local list transforms and the router's `beforeEach` guard.

Conventions used throughout:

- **State is immutable.** Each repository is a `seq` or `map` inside a state datatype. Each service method is a pure function from a state to a `Result` of a new state.
- **Transactions are all-or-nothing.** A `@Transactional` method that throws returns `Err`, and the caller keeps the old state. That is the rollback.
- **Failures are explicit.** The failure says which exception the source raises:
  - `Fail(code)` for an `ApiException` with a `ResultCode` and its default message;
  - `FailWith(code, message)` for an `ApiException` with a `ResultCode` and the message the source writes, exception texts and ids included;
  - `Api(e)` for an `ApiException` built with a bare integer code or only a message;
  - `EntityNotFound`, `AccessDenied`, `IllegalState`, `IllegalArgument`, `IO` and `Runtime` for the JDK, JPA and Spring exceptions;
  - `NullPointer` where the source dereferences a null;
  - `ConstraintViolation` where a NOT NULL column would reject the save.
- **Money is integer cents.** `BigDecimal` values of scale 2 become `int`. The free-shipping threshold 99.00 is `9900` and the freight 10.00 is `1000`.
- **Java nulls are `Option`.** Boxed values and references become `Option<T>`.
- **Strings follow Java.** They are `seq<char>`. `hasText`/`isBlank`, `split` with a literal separator (trailing empty fields dropped), `String.join`, `startsWith`/`endsWith`, `indexOf`/`lastIndexOf` and `hashCode` are defined in `JavaStrings` with Java's semantics.
- **Outside inputs are parameters.** The following are passed in:
  - the current user, which the source reads from the security context;
  - the clock, UUIDs, order numbers and new identity values;
  - the password encoder;
  - the Base64 decoder's verdict and the message of its exception;
  - libphonenumber's `parse` and `isValidNumber`;
  - `StringUtils.cleanPath`;
  - the filesystem's outcome, including whether the image directory can be created and the message of a failed write;
  - the servlet URL builder;
  - in the web client, the result of each server call.
- **Cart operations take products read-only.** Their `products` argument is never returned, so no cart operation can change stock.

Where the code does something its authors evidently did not intend, the model has two members. One keeps the code as written, with a lemma that exhibits the input. The other is corrected, with the intended property proved. See "## Findings".

## Model

| member | source | states |
|---|---|---|
| ResultCodes.FromCode | backend/shoppingMall/src/main/java/org/example/shoppingmall/common/ResultCode.java:7-40 | looking a code up yields the one enum constant that carries it, so FromCode inverts getCode |
| ResultCodes.CodesAreDistinct | backend/shoppingMall/src/main/java/org/example/shoppingmall/common/ResultCode.java:7-40 | no two of the nineteen constants share a code, and each is recovered from its code |
| ResultCodes.CodesWithinFamilyRanges | backend/shoppingMall/src/main/java/org/example/shoppingmall/common/ResultCode.java:14-37 | every business code lies in the range its family's comment reserves; only the generic HTTP codes are below 1000 |
| ResultCodes.SuccessFactoriesSucceed | backend/shoppingMall/src/main/java/org/example/shoppingmall/common/Result.java:24-34 | the three success factories report code 200; the first carries no data, the others the given data, and only the third a custom message |
| ResultCodes.FailureFactoriesCarryNoData | backend/shoppingMall/src/main/java/org/example/shoppingmall/common/Result.java:41-65 | fail and error never carry data; fail(code, msg) keeps its code; fail(msg) is VALIDATION_ERROR; error(rc) uses the constant's code and message, or the custom message when given |
| ResultCodes.ShortcutFactories | backend/shoppingMall/src/main/java/org/example/shoppingmall/common/Result.java:72-95 | notFound, forbidden, unauthorized and validationError are error(rc, message) with codes 404, 403, 401 and 400 |
| ResultCodes.StatusByMeaning | backend/shoppingMall/src/main/java/org/example/shoppingmall/exception/GlobalExceptionHandler.java:23-50 | read constant by constant, the status table gives 404 to the not-found codes, 409 to the duplicates, 401 to login and authorisation failures, 403 to FORBIDDEN, 500 to server and upload failures and 400 to the rest, each in both directions |
| ResultCodes.HttpCodesMapToThemselves | backend/shoppingMall/src/main/java/org/example/shoppingmall/exception/GlobalExceptionHandler.java:25-46 | an HTTP-family constant other than SUCCESS is answered with its own code as status |
| ResultCodes.UnknownCodesAreBadRequest | backend/shoppingMall/src/main/java/org/example/shoppingmall/exception/GlobalExceptionHandler.java:47-50 | a code that belongs to no constant falls through to 400 |
| ResultCodes.HttpStatusOf | backend/shoppingMall/src/main/java/org/example/shoppingmall/exception/GlobalExceptionHandler.java:23-50 | every business code maps to one of 400, 401, 403, 404, 409 or 500 |
| ResultCodes.Handle | backend/shoppingMall/src/main/java/org/example/shoppingmall/exception/GlobalExceptionHandler.java:15-62 | an ApiException answers with the status of its code and a body carrying its code and message and no data; any other exception answers 500 with the ERROR code |
| ResultCodes.HandlerResponses | backend/shoppingMall/src/main/java/org/example/shoppingmall/exception/GlobalExceptionHandler.java:15-62 | an ApiException's code and message reach the body with no data and one of six statuses; any other exception is a 500 carrying ERROR |
| ResultCodes.ApiExceptionConstructors | backend/shoppingMall/src/main/java/org/example/shoppingmall/exception/ApiException.java:13-42 | through the handler, the message-only constructor gives code 400; the ResultCode constructors carry that constant's code, with its message or the custom one; the raw constructor keeps both |
| Paging.PageCount | backend/shoppingMall/src/main/java/org/example/shoppingmall/dto/PageResult.java:25 | for a positive page size the page count is the ceiling of total/pageSize, saturated at Integer.MAX_VALUE, and is 0 exactly when total is 0; a zero page size gives 0 or Integer.MAX_VALUE |
| Paging.PageCountIsTheCeiling | backend/shoppingMall/src/main/java/org/example/shoppingmall/dto/PageResult.java:25 | any p with (p-1)*size < total <= p*size is the page count, so the ceiling is unique |
| Paging.Of | backend/shoppingMall/src/main/java/org/example/shoppingmall/dto/PageResult.java:19-27 | PageResult.of keeps its four arguments and its pages cover the total |
| Catalog.NewProduct | backend/shoppingMall/src/main/java/org/example/shoppingmall/entity/Product.java:64-100 | a new product starts with status 1, sales 0, no comments and isFeatured false, and keeps the given id, name, price, stock and image |
| Catalog.AddComment | backend/shoppingMall/src/main/java/org/example/shoppingmall/entity/Product.java:103-108 | a null comment changes nothing; otherwise the product lists the comment and the comment points back at it, while other products and other comments' references are untouched |
| Catalog.RemoveComment | backend/shoppingMall/src/main/java/org/example/shoppingmall/entity/Product.java:110-115 | a null comment changes nothing; otherwise the product no longer lists the comment and the comment points nowhere, while other products are untouched |
| Catalog.CommentLinkRoundTrip | backend/shoppingMall/src/main/java/org/example/shoppingmall/entity/Product.java:103-115 | linking a comment that points nowhere keeps the two sides of the association consistent, and unlinking it again restores the product table exactly |
| Orders.CalculateSubtotal | backend/shoppingMall/src/main/java/org/example/shoppingmall/entity/OrderItem.java:55-61 | the subtotal is unit price times quantity when both are set and the quantity is positive, and zero otherwise; no other column changes |
| Orders.SubtotalNonNegative | backend/shoppingMall/src/main/java/org/example/shoppingmall/entity/OrderItem.java:55-61 | a line whose unit price is non-negative never gets a negative subtotal |
| Orders.SnapshotItem | backend/shoppingMall/src/main/java/org/example/shoppingmall/entity/OrderItem.java:65-74 | the line copies the product's id, name, image and price at construction time, keeps the quantity and specs, and has its subtotal already computed |
| Orders.SnapshotItemWithoutOrder | backend/shoppingMall/src/main/java/org/example/shoppingmall/entity/OrderItem.java:77-88 | a null product is an IllegalArgumentException; otherwise the line is the same snapshot with no order |
| Orders.NewOrder | backend/shoppingMall/src/main/java/org/example/shoppingmall/entity/Order.java:37-99 | a new order has no lines, no freight, confirmStatus 0 and no timestamps |
| Orders.AddItem | backend/shoppingMall/src/main/java/org/example/shoppingmall/entity/Order.java:112-117 | a null line is ignored; otherwise the line is appended and linked to the order, and lines already linked stay linked |
| Orders.RemoveItem | backend/shoppingMall/src/main/java/org/example/shoppingmall/entity/Order.java:119-124 | a null line is ignored; otherwise one occurrence of the line leaves the list (the multiset loses exactly it), the line is unlinked, and nothing else in the order changes |
| Orders.AddThenRemoveItem | backend/shoppingMall/src/main/java/org/example/shoppingmall/entity/Order.java:112-124 | adding a line not yet in the order and then removing the stored line gives the original order back |
| JavaLists.RemoveFirst | backend/shoppingMall/src/main/java/org/example/shoppingmall/entity/Order.java:121 | List.remove(Object) removes one occurrence of an element present, so the length drops by one and the multiset loses exactly that element; an absent element leaves the list as it was |
| JavaLists.RemoveFirstAfterAppend | backend/shoppingMall/src/main/java/org/example/shoppingmall/entity/Order.java:112-124 | appending an element that is not yet present and removing it again gives the list back |
| Orders.Find | backend/shoppingMall/src/main/java/org/example/shoppingmall/service/impl/OrderServiceImpl.java:131 | the finder returns the first order matching the key, and nothing when no order matches |
| Orders.FindAfterUpdate | backend/shoppingMall/src/main/java/org/example/shoppingmall/service/impl/OrderServiceImpl.java:244-245 | replacing an order with one that matches a key the same way leaves every search by that key unchanged |
| Orders.FindAfterAppend | backend/shoppingMall/src/main/java/org/example/shoppingmall/service/impl/OrderServiceImpl.java:125 | after an order is appended, a search finds what it found before, or else the new order if it matches |
| Orders.NextOrderId | backend/shoppingMall/src/main/java/org/example/shoppingmall/service/impl/OrderServiceImpl.java:125 | the identity given to a new order is larger than every existing order id |
| Orders.CalculateFreight | backend/shoppingMall/src/main/java/org/example/shoppingmall/service/impl/OrderServiceImpl.java:145-151 | freight is zero exactly when the total reaches 99.00 and is 10.00 otherwise |
| Orders.PayAmountDropsAtThreshold | backend/shoppingMall/src/main/java/org/example/shoppingmall/service/impl/OrderServiceImpl.java:145-151 | an order one cent below the free-freight line pays more in total than one exactly at it |
| Orders.PlaceItems | backend/shoppingMall/src/main/java/org/example/shoppingmall/service/impl/OrderServiceImpl.java:89-119 | the item loop fails with a RuntimeException or produces one line per request and keeps the set of products |
| Orders.PlaceItemsSucceedsIff | backend/shoppingMall/src/main/java/org/example/shoppingmall/service/impl/OrderServiceImpl.java:90-106 | the loop succeeds exactly when every line has a product id, a positive quantity and a known product, and no product is asked, over all its lines together, for more than its stock |
| Orders.PlaceItemsStock | backend/shoppingMall/src/main/java/org/example/shoppingmall/service/impl/OrderServiceImpl.java:101-106 | after the loop each product's stock has dropped by exactly the total quantity ordered of it, and nothing else about any product changed |
| Orders.PlaceItemsLines | backend/shoppingMall/src/main/java/org/example/shoppingmall/service/impl/OrderServiceImpl.java:108-118 | line i snapshots the product of request i; the total is the sum of the subtotals; each product's quantity over the lines equals what the requests asked |
| Orders.PlacedLinesHaveQuantities | backend/shoppingMall/src/main/java/org/example/shoppingmall/service/impl/OrderServiceImpl.java:108-118 | every placed line has a quantity and a known product and points at the new order |
| Orders.RepeatedProductCheckedCumulatively | backend/shoppingMall/src/main/java/org/example/shoppingmall/service/impl/OrderServiceImpl.java:101-105 | with 5 in stock, two lines of 3 for the same product are refused although either line alone is placed |
| Orders.CreateOrder | backend/shoppingMall/src/main/java/org/example/shoppingmall/service/impl/OrderServiceImpl.java:55-127 | on success exactly one order is appended and only the product table otherwise changes; the order is PENDING_PAYMENT with the request's address, receiver, note and payment method, one line per requested item, no timestamps, pay amount equal to total plus freight, free freight exactly from 99.00, and a fresh id |
| Orders.CreateOrderSucceedsIff | backend/shoppingMall/src/main/java/org/example/shoppingmall/service/impl/OrderServiceImpl.java:58-125 | an order is created exactly when the buyer exists, the item list is non-empty, the address has text, the lines are placeable against the stock, and the order number is not taken |
| Orders.CreateOrderEffect | backend/shoppingMall/src/main/java/org/example/shoppingmall/service/impl/OrderServiceImpl.java:89-125 | each product loses exactly the quantity ordered of it; each line is its product's snapshot; the total is the sum of the subtotals; the lines point at the order; order numbers stay unique; the new number finds the new order |
| Orders.Restock | backend/shoppingMall/src/main/java/org/example/shoppingmall/service/impl/OrderServiceImpl.java:234-242 | the restock loop fails only with a null-pointer error; on success each product's stock grows by the quantity its lines carry and nothing else changes |
| Orders.RestockFailsIff | backend/shoppingMall/src/main/java/org/example/shoppingmall/service/impl/OrderServiceImpl.java:235-240 | restocking fails exactly when some line names a known product but has no quantity, which is the null Integer being unboxed |
| Orders.CancelOrder | backend/shoppingMall/src/main/java/org/example/shoppingmall/service/impl/OrderServiceImpl.java:225-247 | only the caller's own order, found by number and buyer, and only while it is PENDING_PAYMENT or AWAITING_SHIPMENT, is cancelled; the order becomes CANCELLED in place and only the product table otherwise changes |
| Orders.RestockUndoesPlacement | backend/shoppingMall/src/main/java/org/example/shoppingmall/service/impl/OrderServiceImpl.java:101-106 | giving back the lines of a successful placement restores the product table exactly |
| Orders.CreateThenCancelRestoresStock | backend/shoppingMall/src/main/java/org/example/shoppingmall/service/impl/OrderServiceImpl.java:225-247 | cancelling an order right after creating it restores every product's stock, and a second cancel of the same order is refused |
| Orders.Advance | backend/shoppingMall/src/main/java/org/example/shoppingmall/service/impl/OrderServiceImpl.java:208-219 | the status is set; a timestamp already set is never overwritten; a timestamp changes only when its status is reached for the first time, and it then takes the clock |
| Orders.UpdateOrderStatus | backend/shoppingMall/src/main/java/org/example/shoppingmall/service/impl/OrderServiceImpl.java:189-223 | the update fails only with a RuntimeException and touches only the order list, whose length is unchanged |
| Orders.UpdateOrderStatusSpec | backend/shoppingMall/src/main/java/org/example/shoppingmall/service/impl/OrderServiceImpl.java:189-223 | the update succeeds exactly when the number names an order that is not COMPLETED, CANCELLED or REFUNDED; it then changes that order's status and timestamps and nothing else |
| Orders.UpdateOrderStatusNullable | backend/shoppingMall/src/main/java/org/example/shoppingmall/service/impl/OrderServiceImpl.java:190-223 | with a status it is the update above; a null status always fails, and fails on the NOT NULL status column exactly when the number names an order that is not final |
| Orders.FinalStatusesAbsorb | backend/shoppingMall/src/main/java/org/example/shoppingmall/service/impl/OrderServiceImpl.java:194-196 | after a successful update to a target, the next update is refused exactly when the target is COMPLETED, CANCELLED or REFUNDED; FAILED can still be left |
| Orders.TimestampsWriteOnce | backend/shoppingMall/src/main/java/org/example/shoppingmall/service/impl/OrderServiceImpl.java:209-219 | over two updates the pay time is the clock of the first update to AWAITING_SHIPMENT, and delivery and receive times, once set, survive |
| Orders.GetOrderDetailsByOrderNo | backend/shoppingMall/src/main/java/org/example/shoppingmall/service/impl/OrderServiceImpl.java:129-138 | an unknown number is a RuntimeException exactly when no order has it; the first order with the number is returned exactly when its buyer is the caller, and is someone else's an UnauthorizedException |
| Orders.GetOrderDetails | backend/shoppingMall/src/main/java/org/example/shoppingmall/service/impl/OrderServiceImpl.java:161-166 | the order with that id is returned, and the RuntimeException is raised exactly when no order has the id |
| Orders.CreatedOrderVisibleToBuyer | backend/shoppingMall/src/main/java/org/example/shoppingmall/service/impl/OrderServiceImpl.java:129-138 | a freshly created order is returned to its buyer by number and refused to anyone else |
| Orders.MapIntegerToOrderStatus | backend/shoppingMall/src/main/java/org/example/shoppingmall/service/impl/OrderServiceImpl.java:402-421 | exactly the tab codes 1 to 6 map to a status; every code but 4 maps to the status whose tab it is, and 4 ("to review") maps to COMPLETED |
| Orders.TabMappingRoundTrip | backend/shoppingMall/src/main/java/org/example/shoppingmall/service/impl/OrderServiceImpl.java:402-421 | tab codes and statuses invert each other, except that tabs 4 and 5 both select COMPLETED; the six codes give PENDING_PAYMENT, AWAITING_SHIPMENT, SHIPPED, COMPLETED, COMPLETED, CANCELLED; PROCESSING, DELIVERED, REFUND_PENDING, REFUNDED and FAILED have no tab |
| Orders.StatusFilter | backend/shoppingMall/src/main/java/org/example/shoppingmall/service/impl/OrderServiceImpl.java:171-185 | a null or 0 status filters nothing; any other code filters by its mapped status, and an unknown code filters nothing |
| Orders.FilterOrders | backend/shoppingMall/src/main/java/org/example/shoppingmall/service/impl/OrderServiceImpl.java:171-185 | the result holds exactly the stored orders of the buyer that have the wanted status, or all of them with no status |
| Orders.GetUserOrders | backend/shoppingMall/src/main/java/org/example/shoppingmall/service/impl/OrderServiceImpl.java:168-187 | the result holds exactly the caller's orders, restricted to the mapped status when there is one |
| Orders.QrUrl | backend/shoppingMall/src/main/java/org/example/shoppingmall/service/impl/OrderServiceImpl.java:354 | the QR link starts with the fixed prefix and ends with the payment method, printed as "null" when absent |
| Orders.QrUrlCarriesOrderNo | backend/shoppingMall/src/main/java/org/example/shoppingmall/service/impl/OrderServiceImpl.java:354 | read back up to the first '&', the link's orderNo parameter is the order number whenever that number holds no '&' |
| Orders.InitiatePayment | backend/shoppingMall/src/main/java/org/example/shoppingmall/service/impl/OrderServiceImpl.java:334-363 | payment starts exactly when the caller's own order with that id is PENDING_PAYMENT; the answer carries the number of that order (the first found by id and buyer) and the QR link built from it and the method |
| Orders.GetOrderPaymentStatus | backend/shoppingMall/src/main/java/org/example/shoppingmall/service/impl/OrderServiceImpl.java:365-400 | an unknown id is an EntityNotFoundException, exactly; otherwise the answer is the name of the payment state of the order with that id |
| Orders.PaymentStatusOf | backend/shoppingMall/src/main/java/org/example/shoppingmall/service/impl/OrderServiceImpl.java:383-396 | only PENDING_PAYMENT is pending, only the refund statuses are unknown, and a failed payment is never a completed order |
| Orders.PaymentStateFollowsLifecycle | backend/shoppingMall/src/main/java/org/example/shoppingmall/service/impl/OrderServiceImpl.java:383-396 | each of the ten statuses is pinned: PENDING_PAYMENT reads pending; PROCESSING, AWAITING_SHIPMENT, SHIPPED, DELIVERED and COMPLETED read paid; CANCELLED and FAILED read failed; REFUND_PENDING and REFUNDED read unknown; the four names are distinct |
| Products.RequestedDirection | backend/shoppingMall/src/main/java/org/example/shoppingmall/service/impl/ProductServiceImpl.java:472 | the direction is ASC exactly when the order equals "asc" ignoring case; null and everything else is DESC |
| Products.CreateSort | backend/shoppingMall/src/main/java/org/example/shoppingmall/service/impl/ProductServiceImpl.java:468-485 | a sort without text sorts by createTime DESC; any other result is the caller's own sort string in the requested direction |
| Products.CreateSortByKey | backend/shoppingMall/src/main/java/org/example/shoppingmall/service/impl/ProductServiceImpl.java:469-484 | for a sort with text, the "default" test is subsumed: the caller's string is honoured exactly when its lower case is price, sales or createtime, and otherwise createTime DESC is used |
| Products.CreateSortNamesMissingProperty | backend/shoppingMall/src/main/java/org/example/shoppingmall/service/impl/ProductServiceImpl.java:475-482 | as written, the accepted spellings "createtime" and "Price" reach the repository as property names the Product entity does not declare |
| Products.CreateSortFixed | backend/shoppingMall/src/main/java/org/example/shoppingmall/service/impl/ProductServiceImpl.java:468-485 | the corrected sort names a declared Product property and agrees with the original in direction and, ignoring case, in property |
| Products.PageIndex | backend/shoppingMall/src/main/java/org/example/shoppingmall/service/impl/ProductServiceImpl.java:137 | the zero-based page index is pageNum-1 for positive page numbers and 0 otherwise |
| Products.SearchKeyword | backend/shoppingMall/src/main/java/org/example/shoppingmall/service/impl/ProductServiceImpl.java:143 | a keyword reaches the query exactly when it has text, and then trimmed |
| Products.SearchKeywordIsTrimmed | backend/shoppingMall/src/main/java/org/example/shoppingmall/service/impl/ProductServiceImpl.java:143 | the keyword a query receives is already trimmed |
| JavaStrings.TrimIdempotent | backend/shoppingMall/src/main/java/org/example/shoppingmall/service/impl/ProductServiceImpl.java:143 | trimming a trimmed keyword changes nothing |
| JavaStrings.TrimEndsVisible | backend/shoppingMall/src/main/java/org/example/shoppingmall/service/impl/ProductServiceImpl.java:143 | a trimmed string is empty or begins and ends with a character above U+0020 |
| JavaStrings.TrimKeepsVisible | backend/shoppingMall/src/main/java/org/example/shoppingmall/service/impl/ProductServiceImpl.java:143 | a keyword with a character above U+0020 never trims to the empty string |
| JavaStrings.TrimStart | backend/shoppingMall/src/main/java/org/example/shoppingmall/service/impl/ProductServiceImpl.java:143 | the leading half of String.trim: a suffix of the input that is empty or starts above U+0020 |
| JavaStrings.TrimEnd | backend/shoppingMall/src/main/java/org/example/shoppingmall/service/impl/ProductServiceImpl.java:143 | the trailing half of String.trim: a prefix of the input that is empty or ends above U+0020 |
| JavaStrings.TrimStartDropsBlanks | backend/shoppingMall/src/main/java/org/example/shoppingmall/service/impl/ProductServiceImpl.java:143 | every character trim removes at the start is at most U+0020 |
| JavaStrings.TrimEndDropsBlanks | backend/shoppingMall/src/main/java/org/example/shoppingmall/service/impl/ProductServiceImpl.java:143 | every character trim removes at the end is at most U+0020 |
| JavaStrings.AsciiWhitespaceIsTrimmed | backend/shoppingMall/src/main/java/org/example/shoppingmall/service/impl/ProductServiceImpl.java:143 | below U+0080, every character Character.isWhitespace accepts is one String.trim removes |
| JavaStrings.HasTextVersusTrim | backend/shoppingMall/src/main/java/org/example/shoppingmall/service/impl/ProductServiceImpl.java:143 | StringUtils.hasText and String.trim disagree: "\0" has text but trims to "", and U+3000 has no text but survives trim |
| JavaStrings.CaseFoldLaws | backend/shoppingMall/src/main/java/org/example/shoppingmall/service/impl/ProductServiceImpl.java:472-476 | the folds used by equalsIgnoreCase and toLowerCase: lowering is idempotent, undoes raising, leaves no capital letter, and a string equals its upper case ignoring case |
| Products.SelectQuery | backend/shoppingMall/src/main/java/org/example/shoppingmall/service/impl/ProductServiceImpl.java:136-157 | the featured query runs exactly for type "featured" in any case; otherwise the advanced search runs exactly when a filter is present, else the status-1 listing; the filters are passed on with the keyword trimmed |
| Products.QuerySelectionExamples | backend/shoppingMall/src/main/java/org/example/shoppingmall/service/impl/ProductServiceImpl.java:146-147 | a zero maximum price alone is no filter, a positive one is; "FEATURED" selects the featured query; a keyword arrives trimmed |
| Products.MatchedFormat | backend/shoppingMall/src/main/java/org/example/shoppingmall/service/impl/ProductServiceImpl.java:81-98 | the recognised data-URI header is one s starts with, and none is recognised exactly when s starts with none of the four |
| Products.PrefixesExclusive | backend/shoppingMall/src/main/java/org/example/shoppingmall/service/impl/ProductServiceImpl.java:81-92 | at most one of the four data-URI headers can begin a string, so the order in which they are tried does not matter |
| Products.SplitDataUri | backend/shoppingMall/src/main/java/org/example/shoppingmall/service/impl/ProductServiceImpl.java:81-98 | without a recognised header, the whole string is the payload and the extension is .jpg |
| Products.DataUriRoundTrip | backend/shoppingMall/src/main/java/org/example/shoppingmall/service/impl/ProductServiceImpl.java:81-92 | stripping a known header from header + payload gives the payload back, together with that header's extension |
| Products.NoDataSchemeDecodedWhole | backend/shoppingMall/src/main/java/org/example/shoppingmall/service/impl/ProductServiceImpl.java:93-97 | a string that does not begin with "data:" is decoded whole with extension .jpg |
| Products.ResolvedBaseUrl | backend/shoppingMall/src/main/java/org/example/shoppingmall/service/impl/ProductServiceImpl.java:117 | the base URL gets exactly one '/' appended unless it already ends in one |
| Products.StoreImage | backend/shoppingMall/src/main/java/org/example/shoppingmall/service/impl/ProductServiceImpl.java:100-126 | storing fails exactly when the payload does not decode or the file cannot be written: ApiException(400) "字段 <field> 的Base64数据无效: " and the decoder's message first, then ApiException(500) "无法创建图片存储目录: " and the path when the directory cannot be created, then ApiException(500) "字段 <field> 的文件保存操作失败: " and the IOException's message; otherwise the URL is the resolved base, the random file name and the extension |
| Products.SaveBase64Image | backend/shoppingMall/src/main/java/org/example/shoppingmall/service/impl/ProductServiceImpl.java:72-127 | a string without text yields null, exactly; otherwise the stored file's URL or the store's failure |
| Products.StoredUrlShape | backend/shoppingMall/src/main/java/org/example/shoppingmall/service/impl/ProductServiceImpl.java:113-118 | a stored image's URL starts with the public base URL, has text, and reads as an existing URL when sent back |
| Products.KeepOrStore | backend/shoppingMall/src/main/java/org/example/shoppingmall/service/impl/ProductServiceImpl.java:357-368 | a blank entry is dropped; an existing URL is kept verbatim; any other entry is stored under the field name "更新附图列表[<i>]", and fails exactly when that store fails, with its error; every kept entry is a URL with text |
| Products.MergeImages | backend/shoppingMall/src/main/java/org/example/shoppingmall/service/impl/ProductServiceImpl.java:349-377 | the merged list has one URL per entry with text; a list of URLs only comes back as its entries with text, in order |
| Products.MergeImagesIdempotent | backend/shoppingMall/src/main/java/org/example/shoppingmall/service/impl/ProductServiceImpl.java:349-377 | sending the merged list back yields the same list |
| Products.ToView | backend/shoppingMall/src/main/java/org/example/shoppingmall/service/impl/ProductServiceImpl.java:426-466 | the view keeps the id, reads a null isFeatured as false and null lists as empty |
| Products.GetProductById | backend/shoppingMall/src/main/java/org/example/shoppingmall/service/impl/ProductServiceImpl.java:164-170 | an unknown id is PRODUCT_NOT_EXISTS, exactly; otherwise the view of the stored product |
| Products.UploadedUrls | backend/shoppingMall/src/main/java/org/example/shoppingmall/service/impl/ProductServiceImpl.java:216-227 | every extra image that uploaded contributes its URL; failed uploads are skipped |
| Products.MainImage | backend/shoppingMall/src/main/java/org/example/shoppingmall/service/impl/ProductServiceImpl.java:195-213 | an uploaded main file wins; a failed upload is UPLOAD_FAILED with "主图上传失败: " and the upload's message; with no file, a DTO imageUrl with text is used exactly when present, else VALIDATION_ERROR with "必须提供商品主图。" |
| Products.CreateImagesRule | backend/shoppingMall/src/main/java/org/example/shoppingmall/service/impl/ProductServiceImpl.java:228-253 | the three-way choice for the extra images amounts to: uploaded files win, else the DTO's list, else none |
| Products.ListOrEmpty | backend/shoppingMall/src/main/java/org/example/shoppingmall/service/impl/ProductServiceImpl.java:287-298 | a non-empty list is stored as given; null and the empty list are stored as the empty array |
| Products.Reference | backend/shoppingMall/src/main/java/org/example/shoppingmall/service/impl/ProductServiceImpl.java:256-275 | a required reference resolves exactly when it is given and exists; a missing one is VALIDATION_ERROR with the given message, and an unknown one the given code with the given prefix, the id in decimal and " 不存在" |
| Products.CreateProduct | backend/shoppingMall/src/main/java/org/example/shoppingmall/service/impl/ProductServiceImpl.java:179-320 | the checks fail in the source's order with the source's codes and messages: the main image; a missing category ("商品分类不能为空。") or unknown one (CATEGORY_NOT_EXISTS, "分类ID: <id> 不存在"); a missing seller ("卖家ID不能为空。") or unknown one (USER_NOT_EXISTS, "卖家用户ID: <id> 不存在"); then a null name, price or stock as VALIDATION_ERROR with "保存商品失败，数据不符合要求: " and the database's message. It succeeds exactly when all pass, adding one product under a fresh id owned by the seller, with status defaulting to 1, isFeatured to false, sales 0, and the images chosen as above |
| Products.CreateThenGetThenDelete | backend/shoppingMall/src/main/java/org/example/shoppingmall/service/impl/ProductServiceImpl.java:164-170 | a created product reads back as the view createProduct returned, and while nothing references it, deleting it restores the product table |
| Products.UpdatedCategory | backend/shoppingMall/src/main/java/org/example/shoppingmall/service/impl/ProductServiceImpl.java:333-337 | only a different category id is looked up; an unknown one is CATEGORY_NOT_EXISTS, exactly |
| Products.UpdatedMainImage | backend/shoppingMall/src/main/java/org/example/shoppingmall/service/impl/ProductServiceImpl.java:339-346 | a main image without text keeps the stored URL; any text is stored as base64 under the field name "更新主图(imageUrl)" |
| Products.UpdatedImages | backend/shoppingMall/src/main/java/org/example/shoppingmall/service/impl/ProductServiceImpl.java:348-377 | a null list leaves the column unchanged; otherwise the merged list replaces it, or its failure fails the update |
| Products.UpdateProduct | backend/shoppingMall/src/main/java/org/example/shoppingmall/service/impl/ProductServiceImpl.java:322-400 | an unknown id is PRODUCT_NOT_EXISTS; then the category, main-image and image-list steps fail with their own errors in that order, and a null name, price, stock or isFeatured fails the save; it succeeds exactly when all pass, and exactly the one product changes, with the bean-copied columns overwritten (nulls included) and category, images, params and specs updated as their steps say |
| Products.UpdateWithoutFeaturedFails | backend/shoppingMall/src/main/java/org/example/shoppingmall/service/impl/ProductServiceImpl.java:331 | as written, an update that leaves isFeatured null fails the save, although line 394 intends null to keep the flag |
| Products.UpdateResendingImageUrlFails | backend/shoppingMall/src/main/java/org/example/shoppingmall/service/impl/ProductServiceImpl.java:340-346 | as written, sending back the stored main-image URL, which has a character outside the Base64 alphabet, fails the update with ApiException(400) "字段 更新主图(imageUrl) 的Base64数据无效: " and the decoder's message |
| Products.UpdatedMainImageFixed | backend/shoppingMall/src/main/java/org/example/shoppingmall/service/impl/ProductServiceImpl.java:339-346 | in the corrected step an existing URL is kept like the list entries, and the result is always the stored URL or a URL |
| Products.UpdateProductFixed | backend/shoppingMall/src/main/java/org/example/shoppingmall/service/impl/ProductServiceImpl.java:322-400 | the corrected update succeeds exactly when the steps pass and name, price and stock are given; it changes exactly the one product, keeps its sales and seller, and a null isFeatured keeps the stored flag |
| Products.UpdateFixedOwnViewIsNoOp | backend/shoppingMall/src/main/java/org/example/shoppingmall/service/impl/ProductServiceImpl.java:322-400 | with the corrections, saving a product's own view back changes nothing |
| Products.UpdateFixedWithoutFeaturedKeepsFlag | backend/shoppingMall/src/main/java/org/example/shoppingmall/service/impl/ProductServiceImpl.java:393-396 | with the corrections, an update without isFeatured succeeds and keeps the stored flag |
| Products.DeleteProduct | backend/shoppingMall/src/main/java/org/example/shoppingmall/service/impl/ProductServiceImpl.java:402-417 | an unknown id is PRODUCT_NOT_EXISTS; a product that an order line, cart line or favorite references fails the foreign key; otherwise exactly that product is removed and can no longer be read |
| Addresses.FindById | backend/shoppingMall/src/main/java/org/example/shoppingmall/repository/AddressRepository.java:14 | the finder returns a position holding a row with that id, and finds nothing exactly when no row has it |
| Addresses.FindByUserId | backend/shoppingMall/src/main/java/org/example/shoppingmall/repository/AddressRepository.java:16 | a row is listed exactly when it is in the table and belongs to the user |
| Addresses.CountByUserId | backend/shoppingMall/src/main/java/org/example/shoppingmall/repository/AddressRepository.java:32 | the count is zero exactly when the user owns no row |
| Addresses.Defaults | backend/shoppingMall/src/main/java/org/example/shoppingmall/repository/AddressRepository.java:18 | a row is selected exactly when it belongs to the user and is flagged default |
| Addresses.FindDefault | backend/shoppingMall/src/main/java/org/example/shoppingmall/repository/AddressRepository.java:18 | the Optional is empty exactly when the user has no default row, holds one of the user's default rows otherwise, and fails only when two or more rows match |
| Addresses.AtMostOneDefaultFindsOne | backend/shoppingMall/src/main/java/org/example/shoppingmall/repository/AddressRepository.java:18 | while each user has at most one default, at most one row matches and the single-result finder never fails |
| Addresses.ClearDefaultForUser | backend/shoppingMall/src/main/java/org/example/shoppingmall/repository/AddressRepository.java:20-22 | every row of the user loses the default flag, every other row is untouched, and no other column changes |
| Addresses.UnsetDefaultsExcept | backend/shoppingMall/src/main/java/org/example/shoppingmall/repository/AddressRepository.java:24-26 | every row of the user except the named one loses the default flag; all other rows, and all other columns, are untouched |
| Addresses.SetDefaultRow | backend/shoppingMall/src/main/java/org/example/shoppingmall/repository/AddressRepository.java:28-30 | the named row gains the default flag and no row loses it |
| Addresses.SetDefaultRowAloneBreaksInvariant | backend/shoppingMall/src/main/java/org/example/shoppingmall/repository/AddressRepository.java:28-30 | a table with one default per user can end with two defaults for one user after this update alone |
| Addresses.DeleteById | backend/shoppingMall/src/main/java/org/example/shoppingmall/repository/AddressRepository.java:14 | no row with the id remains and the table does not grow |
| Addresses.DeleteByIdMembers | backend/shoppingMall/src/main/java/org/example/shoppingmall/repository/AddressRepository.java:14 | a row survives deletion exactly when it was in the table with another id |
| Addresses.DeleteByIdAt | backend/shoppingMall/src/main/java/org/example/shoppingmall/repository/AddressRepository.java:14 | when no other row shares row k's id, deletion removes exactly row k and keeps the rest in order |
| Addresses.DeleteByIdAbsent | backend/shoppingMall/src/main/java/org/example/shoppingmall/repository/AddressRepository.java:14 | deleting an id no row has leaves the table as it was |
| Addresses.OwnedAddress | backend/shoppingMall/src/main/java/org/example/shoppingmall/service/impl/AddressServiceImpl.java:63-68 | the check yields a position holding the id and owned by the user; it fails with not-found exactly when no row has the id, and otherwise only with access denied |
| Addresses.CreateAddress | backend/shoppingMall/src/main/java/org/example/shoppingmall/service/impl/AddressServiceImpl.java:28-51 | an unknown user fails not-found; otherwise one row is appended under the next id with the DTO's fields, and it is the default exactly when the DTO asks for it or the user had no address, in which case all the user's other rows are cleared and no one else's change |
| Addresses.CreateAddressKeepsValid | backend/shoppingMall/src/main/java/org/example/shoppingmall/service/impl/AddressServiceImpl.java:28-51 | creation keeps ids unique, owners existing and at most one default per user |
| Addresses.FirstAddressIsDefault | backend/shoppingMall/src/main/java/org/example/shoppingmall/service/impl/AddressServiceImpl.java:36-37 | a user's first address is created as their default whatever the DTO says |
| Addresses.UpdateAddress | backend/shoppingMall/src/main/java/org/example/shoppingmall/service/impl/AddressServiceImpl.java:70-75 | as written: ownership failures are passed on and a null isDefault fails; otherwise only the addressed row changes, taking the DTO's fields and flag, and no other row is ever cleared |
| Addresses.UpdateAddressLeavesTwoDefaults | backend/shoppingMall/src/main/java/org/example/shoppingmall/service/impl/AddressServiceImpl.java:70-75 | a valid table with one default can be updated into one with two defaults for the same user, after which the default finder fails |
| Addresses.UpdateAddressFixed | backend/shoppingMall/src/main/java/org/example/shoppingmall/service/impl/AddressServiceImpl.java:62-81 | corrected: the same failures, and making a non-default row the default clears the user's other defaults |
| Addresses.UpdateAddressFixedKeepsValid | backend/shoppingMall/src/main/java/org/example/shoppingmall/service/impl/AddressServiceImpl.java:62-81 | the corrected update keeps every invariant of the table |
| Addresses.PassDefault | backend/shoppingMall/src/main/java/org/example/shoppingmall/service/impl/AddressServiceImpl.java:93-105 | only the default flags change, and the only change is that the first row of the user other than the deleted one becomes the default; when such a row exists some such row is then the default |
| Addresses.DeleteAddress | backend/shoppingMall/src/main/java/org/example/shoppingmall/service/impl/AddressServiceImpl.java:85-108 | it fails exactly when the ownership check fails, with its error; otherwise no row with the id remains and users and identity counter are unchanged |
| Addresses.DeleteAddressEffect | backend/shoppingMall/src/main/java/org/example/shoppingmall/service/impl/AddressServiceImpl.java:85-108 | with unique ids, deletion removes exactly the addressed row, after the promotion step when that row was the default |
| Addresses.DeleteAddressKeepsValid | backend/shoppingMall/src/main/java/org/example/shoppingmall/service/impl/AddressServiceImpl.java:85-108 | deletion keeps every invariant of the table |
| Addresses.DeleteDefaultPassesItOn | backend/shoppingMall/src/main/java/org/example/shoppingmall/service/impl/AddressServiceImpl.java:93-105 | deleting the default address of a user with another address leaves that user with a default |
| Addresses.GetAddressById | backend/shoppingMall/src/main/java/org/example/shoppingmall/service/impl/AddressServiceImpl.java:111-122 | it fails exactly when the ownership check fails and otherwise returns the DTO of the user's row with that id |
| Addresses.GetUserAddresses | backend/shoppingMall/src/main/java/org/example/shoppingmall/service/impl/AddressServiceImpl.java:125-137 | it fails exactly for an unknown user and otherwise lists one DTO per row of the user, covering each of them |
| Addresses.GetUserDefaultAddress | backend/shoppingMall/src/main/java/org/example/shoppingmall/service/impl/AddressServiceImpl.java:140-148 | null exactly when the user has no default row, otherwise the DTO of one of the user's default rows; it fails only when two rows are default |
| Addresses.SetDefaultAddress | backend/shoppingMall/src/main/java/org/example/shoppingmall/service/impl/AddressServiceImpl.java:152-166 | it fails exactly when the ownership check fails; otherwise the addressed row becomes the user's only default, only default flags change, and other users' rows are untouched |
| Addresses.SetDefaultThenGetDefault | backend/shoppingMall/src/main/java/org/example/shoppingmall/service/impl/AddressServiceImpl.java:140-166 | after setting a default on a valid table the table stays valid and the default finder returns exactly that address |
| Coupons.AmountQueriesNarrow | backend/shoppingMall/src/main/java/org/example/shoppingmall/repository/CouponRepository.java:38-69 | the amount queries are the unfiltered ones narrowed by minimum purchase: every coupon they list is available, and an available coupon within the amount is listed |
| Coupons.AddCoupon | backend/shoppingMall/src/main/java/org/example/shoppingmall/entity/User.java:96-101 | the coupon joins the user's set and the user joins the coupon's holder set when that is not null; nothing else in either set changes |
| Coupons.RemoveCoupon | backend/shoppingMall/src/main/java/org/example/shoppingmall/entity/User.java:103-108 | the coupon leaves the user's set and the user leaves a non-null holder set; nothing else in either set changes |
| Coupons.AddRemoveCouponLaws | backend/shoppingMall/src/main/java/org/example/shoppingmall/entity/User.java:96-108 | adding twice is adding once, and removing a coupon that was just added undoes the add on both sides |
| Coupons.CreateCoupon | backend/shoppingMall/src/main/java/org/example/shoppingmall/service/impl/CouponServiceImpl.java:31-42 | the coupon is written at the save target (a stored id copied from the DTO is merged onto, otherwise the next id) with the DTO's terms, a used count of 0 and active, keeping the holders; the id counter moves only on an insert; a code another row holds violates the unique index and nothing changes |
| Coupons.SaveTarget | backend/shoppingMall/src/main/java/org/example/shoppingmall/service/impl/CouponServiceImpl.java:31-36 | the row the save writes is the DTO's id when it names a stored coupon, and the next id otherwise |
| Coupons.CreateWithStoredIdResetsUsage | backend/shoppingMall/src/main/java/org/example/shoppingmall/service/impl/CouponServiceImpl.java:31-36 | a create request carrying a used coupon's id and code rewrites that coupon, resetting its used count to 0 while its holders keep it |
| Coupons.UpdateCoupon | backend/shoppingMall/src/main/java/org/example/shoppingmall/service/impl/CouponServiceImpl.java:46-58 | an unknown id is EntityNotFound; otherwise the terms and the active flag come from the DTO while id, used count and holders stay, and no other coupon changes |
| Coupons.DeleteCoupon | backend/shoppingMall/src/main/java/org/example/shoppingmall/service/impl/CouponServiceImpl.java:62-67 | an unknown id is EntityNotFound; a coupon some user holds is refused by the join table's foreign key; otherwise exactly that coupon is removed |
| Coupons.WritesKeepValid | backend/shoppingMall/src/main/java/org/example/shoppingmall/service/impl/CouponServiceImpl.java:31-67 | a successful create, update or delete keeps rows under their ids, codes unique (the unique index on `code`) and every holding pointing at a stored user and coupon |
| Coupons.GetCouponById | backend/shoppingMall/src/main/java/org/example/shoppingmall/service/impl/CouponServiceImpl.java:70-77 | it fails exactly for an unknown id and otherwise returns that coupon's copy, carrying its id |
| Coupons.GetAvailableCoupons | backend/shoppingMall/src/main/java/org/example/shoppingmall/service/impl/CouponServiceImpl.java:90-113 | exactly the coupons that are active, in their window, not used up and, with an amount, within its minimum purchase are listed (both directions) |
| Coupons.GetUserCoupons | backend/shoppingMall/src/main/java/org/example/shoppingmall/service/impl/CouponServiceImpl.java:116-149 | an unknown user is EntityNotFound; otherwise exactly the coupons the user holds that are active and in their window, and with an amount within its minimum purchase, are listed (both directions), whatever their used count |
| Coupons.AssignCouponToUser | backend/shoppingMall/src/main/java/org/example/shoppingmall/service/impl/CouponServiceImpl.java:153-174 | a missing coupon or user is EntityNotFound; success adds exactly the user's holding and changes nothing else, the used count included |
| Coupons.AssignSucceedsIffAvailable | backend/shoppingMall/src/main/java/org/example/shoppingmall/service/impl/CouponServiceImpl.java:162-168 | assignment succeeds exactly for coupons the available query lists, fails otherwise with IllegalState, and repeating it changes nothing |
| Coupons.UseCouponCheck | backend/shoppingMall/src/main/java/org/example/shoppingmall/service/impl/CouponServiceImpl.java:179-194 | use proceeds exactly when the coupon and user exist, the user holds the coupon, and it is active and in its window; a missing row is EntityNotFound and the rest IllegalState |
| Coupons.UseCouponAsWritten | backend/shoppingMall/src/main/java/org/example/shoppingmall/service/impl/CouponServiceImpl.java:178-204 | as written, a use that passes the checks raises the used count by one |
| Coupons.UseCouponAsWrittenKeepsHolding | backend/shoppingMall/src/main/java/org/example/shoppingmall/service/impl/CouponServiceImpl.java:197-200 | as written, the holding survives the use, because the incremented count changes the coupon's hash and the set no longer finds it |
| Coupons.UseCouponAsWrittenRepeats | backend/shoppingMall/src/main/java/org/example/shoppingmall/service/impl/CouponServiceImpl.java:186-200 | as written, the same user can use the coupon a second time without a new assignment, for a used count two higher |
| Coupons.UseCoupon | backend/shoppingMall/src/main/java/org/example/shoppingmall/service/impl/CouponServiceImpl.java:178-204 | corrected, a use that passes the checks raises the used count by one, removes exactly the user's holding and changes nothing else |
| Coupons.HoldingIsLoaded | backend/shoppingMall/src/main/java/org/example/shoppingmall/service/impl/CouponServiceImpl.java:186 | in a consistent state the user's loaded coupons contain the coupon exactly when the join table pairs them |
| Coupons.UseCouponOnce | backend/shoppingMall/src/main/java/org/example/shoppingmall/service/impl/CouponServiceImpl.java:186-200 | corrected, a use keeps the state consistent and a second use without reassignment fails IllegalState |
| Coupons.AssignThenUse | backend/shoppingMall/src/main/java/org/example/shoppingmall/service/impl/CouponServiceImpl.java:153-204 | a coupon assigned now can be used now, and the use removes exactly the holding the assignment added |
| Coupons.UsedCountCanExceedTotal | backend/shoppingMall/src/main/java/org/example/shoppingmall/service/impl/CouponServiceImpl.java:167-197 | assignment checks the used count without raising it and use raises it without checking, so two holders of a single-issue coupon push the used count past the total |
| JavaStrings.IndexOf | backend/shoppingMall/src/main/java/org/example/shoppingmall/service/impl/UserServiceImpl.java:237 | the position found holds the character and none occurs before it; there is none exactly when the character is absent |
| JavaStrings.LastIndexOf | backend/shoppingMall/src/main/java/org/example/shoppingmall/service/impl/LocalFileStorageServiceImpl.java:62 | the position found holds the character and none occurs after it; there is none exactly when the character is absent |
| JavaStrings.JoinFields | backend/shoppingMall/src/main/java/org/example/shoppingmall/service/impl/CommentServiceImpl.java:74-75 | joining the pieces between separators gives the string back |
| JavaStrings.FieldsJoin | backend/shoppingMall/src/main/java/org/example/shoppingmall/service/impl/CommentServiceImpl.java:137 | cutting a join of separator-free pieces at the separators gives the pieces back |
| JavaStrings.SplitJoin | backend/shoppingMall/src/main/java/org/example/shoppingmall/service/impl/CommentServiceImpl.java:75 | split undoes join for a non-empty list of non-empty, separator-free pieces |
| JavaStrings.Fields | backend/shoppingMall/src/main/java/org/example/shoppingmall/service/impl/CommentServiceImpl.java:75 | the pieces between separators: at least one, none containing the separator |
| JavaStrings.DropTrailingEmpty | backend/shoppingMall/src/main/java/org/example/shoppingmall/service/impl/CommentServiceImpl.java:75 | the trailing-empty removal of String.split: a prefix of the pieces that is empty or ends in a non-empty piece, having dropped only empty pieces |
| JavaStrings.SplitPieces | backend/shoppingMall/src/main/java/org/example/shoppingmall/service/impl/CommentServiceImpl.java:75 | String.split's pieces never contain the separator, and there are none exactly when the string is a non-empty run of separators |
| JavaLists.FirstIndexOf | backend/shoppingMall/src/main/java/org/example/shoppingmall/entity/Cart.java:97 | the position found holds the element and none occurs before it; there is none exactly when the element is absent |
| JavaLists.IndexWhere | backend/shoppingMall/src/main/java/org/example/shoppingmall/service/impl/UserServiceImpl.java:196-197 | the position found satisfies the test and none before it does; there is none exactly when no element does |
| JavaLists.RemoveFirstAt | backend/shoppingMall/src/main/java/org/example/shoppingmall/entity/Cart.java:97 | removing an element whose first occurrence is at position k removes exactly position k |
| Comments.EncodeImagesOnCreate | backend/shoppingMall/src/main/java/org/example/shoppingmall/service/impl/CommentServiceImpl.java:136-140 | a null or empty image list is stored as null, any other list as a string |
| Comments.EncodeImagesOnUpdate | backend/shoppingMall/src/main/java/org/example/shoppingmall/service/impl/CommentServiceImpl.java:162-166 | only a null list is stored as null, and an empty list is stored as "" |
| Comments.DecodeImages | backend/shoppingMall/src/main/java/org/example/shoppingmall/service/impl/CommentServiceImpl.java:74-78 | a column without text reads as the empty list, and one without ';' as the single name it holds |
| Comments.ImageCodecRoundTrip | backend/shoppingMall/src/main/java/org/example/shoppingmall/service/impl/CommentServiceImpl.java:74-166 | reading back what create or update stored gives the list sent, for non-empty names without ';' of which one has text |
| Comments.BlankImageNameIsLost | backend/shoppingMall/src/main/java/org/example/shoppingmall/service/impl/CommentServiceImpl.java:74-78 | the text condition is needed: a list holding one blank name reads back as empty |
| Comments.ToView | backend/shoppingMall/src/main/java/org/example/shoppingmall/service/impl/CommentServiceImpl.java:69-87 | the view keeps the comment's id and author and decodes its images |
| Comments.CheckOrderItem | backend/shoppingMall/src/main/java/org/example/shoppingmall/service/impl/CommentServiceImpl.java:104-116 | the order item passes exactly when it exists, its buyer is the caller and it has no comment yet; an unknown item is EntityNotFound and another buyer's AccessDenied |
| Comments.CreateComment | backend/shoppingMall/src/main/java/org/example/shoppingmall/service/impl/CommentServiceImpl.java:96-146 | a missing user or product is EntityNotFound, a null product id IllegalArgument, a failed order-item check that check's error, and a null rating or content a constraint violation; it succeeds exactly when all checks pass, adding one comment under the next id with visible defaulting to true, isAnonymous to false, and no reply |
| Comments.CreateCommentKeepsOnePerItem | backend/shoppingMall/src/main/java/org/example/shoppingmall/service/impl/CommentServiceImpl.java:113-115 | creating keeps at most one comment per order item, marks the item commented, and returns the images sent when the codec carries them |
| Comments.SecondCommentOnItemFails | backend/shoppingMall/src/main/java/org/example/shoppingmall/service/impl/CommentServiceImpl.java:113-115 | a second comment on the same order item is refused with IllegalState |
| Comments.OwnComment | backend/shoppingMall/src/main/java/org/example/shoppingmall/service/impl/CommentServiceImpl.java:151-156 | a comment passes exactly when it exists and the caller wrote it; otherwise EntityNotFound or AccessDenied |
| Comments.UpdateComment | backend/shoppingMall/src/main/java/org/example/shoppingmall/service/impl/CommentServiceImpl.java:150-177 | only the author may edit; rating and content are overwritten, images re-encoded, isAnonymous and visible changed only when given, and no other comment changes |
| Comments.UpdateCommentKeepsLinks | backend/shoppingMall/src/main/java/org/example/shoppingmall/service/impl/CommentServiceImpl.java:150-177 | an edit keeps the author, product, order item and reply, and keeps one comment per order item |
| Comments.DeleteComment | backend/shoppingMall/src/main/java/org/example/shoppingmall/service/impl/CommentServiceImpl.java:181-190 | it fails exactly when the author check fails, with the same error; otherwise exactly that comment is removed |
| Comments.DeleteFreesOrderItem | backend/shoppingMall/src/main/java/org/example/shoppingmall/service/impl/CommentServiceImpl.java:181-190 | after its comment is deleted the order item counts as uncommented |
| Comments.ReplyToComment | backend/shoppingMall/src/main/java/org/example/shoppingmall/service/impl/CommentServiceImpl.java:194-221 | it fails EntityNotFound exactly when the replier or the comment is missing; otherwise only that comment's reply and reply time change |
| Comments.AnyUserCanReply | backend/shoppingMall/src/main/java/org/example/shoppingmall/service/impl/CommentServiceImpl.java:196-210 | any existing user may reply to any existing comment |
| Comments.ReplyKeepsOnePerItem | backend/shoppingMall/src/main/java/org/example/shoppingmall/service/impl/CommentServiceImpl.java:194-221 | a reply keeps at most one comment per order item, keeps the set of comments, and changes nothing of the comment but its reply and reply time |
| Comments.GetCommentById | backend/shoppingMall/src/main/java/org/example/shoppingmall/service/impl/CommentServiceImpl.java:224-228 | it fails exactly for an unknown id and otherwise returns that comment's view |
| Comments.GetProductComments | backend/shoppingMall/src/main/java/org/example/shoppingmall/service/impl/CommentServiceImpl.java:231-238 | it fails exactly for an unknown product; otherwise the result is exactly the views of the stored visible comments on the product |
| Comments.GetUserComments | backend/shoppingMall/src/main/java/org/example/shoppingmall/service/impl/CommentServiceImpl.java:241-248 | it fails exactly for an unknown user; otherwise the result is exactly the views of the stored visible comments by the user |
| Comments.CreatedCommentIsListed | backend/shoppingMall/src/main/java/org/example/shoppingmall/service/impl/CommentServiceImpl.java:129-133 | a new comment not marked hidden appears in both its product's and its author's listing |
| Comments.HasUserCommentedOnOrderItem | backend/shoppingMall/src/main/java/org/example/shoppingmall/service/impl/CommentServiceImpl.java:273-282 | an unknown item is EntityNotFound; only the item's buyer gets an answer, which is whether the item has a comment |
| Comments.CreateThenHasCommented | backend/shoppingMall/src/main/java/org/example/shoppingmall/service/impl/CommentServiceImpl.java:113-281 | after commenting on an order item the buyer is told they have |
| Favorites.AddFavorite | backend/shoppingMall/src/main/java/org/example/shoppingmall/service/impl/FavoriteServiceImpl.java:28-46 | it fails EntityNotFound exactly when the user or the product is missing; otherwise the pair is in the table afterwards and nothing else changes |
| Favorites.RemoveFavorite | backend/shoppingMall/src/main/java/org/example/shoppingmall/service/impl/FavoriteServiceImpl.java:50-62 | it fails EntityNotFound exactly when the user or the product is missing; otherwise the pair is absent afterwards and nothing else changes |
| Favorites.IsFavorite | backend/shoppingMall/src/main/java/org/example/shoppingmall/service/impl/FavoriteServiceImpl.java:65-72 | a favourite implies both ends exist; in a consistent table the answer is exactly whether the pair is stored, and a missing user or product gives false instead of an error |
| Favorites.GetProductFavoriteCount | backend/shoppingMall/src/main/java/org/example/shoppingmall/service/impl/FavoriteServiceImpl.java:116-124 | it fails exactly for a missing product and otherwise counts the stored pairs for that product |
| Favorites.GetUserFavorites | backend/shoppingMall/src/main/java/org/example/shoppingmall/service/impl/FavoriteServiceImpl.java:75-82 | it fails exactly for a missing user and otherwise yields exactly the products paired with that user |
| Favorites.FavoriteSetLaws | backend/shoppingMall/src/main/java/org/example/shoppingmall/service/impl/FavoriteServiceImpl.java:37-39 | adding twice is adding once, an added pair is a favourite, a removed one is not, and both keep the table consistent |
| Favorites.AddThenRemoveFavorite | backend/shoppingMall/src/main/java/org/example/shoppingmall/service/impl/FavoriteServiceImpl.java:28-62 | removing a favourite that was just added restores the table |
| Favorites.AddFavoriteCounts | backend/shoppingMall/src/main/java/org/example/shoppingmall/service/impl/FavoriteServiceImpl.java:37-45 | a new favourite raises the product's count by one and a repeated one leaves it unchanged |
| Categories.GetCategoryById | backend/shoppingMall/src/main/java/org/example/shoppingmall/service/impl/CategoryServiceImpl.java:37-41 | it fails CATEGORY_NOT_EXISTS exactly for an unknown id and otherwise returns the row's copy |
| Categories.CreateCategory | backend/shoppingMall/src/main/java/org/example/shoppingmall/service/impl/CategoryServiceImpl.java:45-56 | a taken name fails CATEGORY_EXISTS and a null name the NOT NULL column; otherwise the row at the save target (a stored id copied from the DTO is replaced, otherwise the next id is added) carries the DTO's fields, the counter moves only on an insert, and nothing else changes |
| Categories.SaveTarget | backend/shoppingMall/src/main/java/org/example/shoppingmall/service/impl/CategoryServiceImpl.java:51-54 | the row the save writes is the DTO's id when it names a stored category, and the next id otherwise |
| Categories.CreateWithStoredIdReplaces | backend/shoppingMall/src/main/java/org/example/shoppingmall/service/impl/CategoryServiceImpl.java:51-54 | a create request carrying a stored category's id and a free name replaces that category instead of adding one |
| Categories.MergeNonNull | backend/shoppingMall/src/main/java/org/example/shoppingmall/service/impl/CategoryServiceImpl.java:70-84 | each non-null DTO field overwrites its column, every null one keeps it, and the id never changes |
| Categories.MergeNonNullLaws | backend/shoppingMall/src/main/java/org/example/shoppingmall/service/impl/CategoryServiceImpl.java:70-84 | an all-null DTO changes nothing, merging is idempotent, and merging a category's own copy gives it back |
| Categories.UpdateCategory | backend/shoppingMall/src/main/java/org/example/shoppingmall/service/impl/CategoryServiceImpl.java:60-88 | an unknown id fails CATEGORY_NOT_EXISTS; renaming to a name another category holds fails CATEGORY_EXISTS; otherwise only that row changes, by the non-null merge |
| Categories.WritesKeepNamesUnique | backend/shoppingMall/src/main/java/org/example/shoppingmall/service/impl/CategoryServiceImpl.java:47-68 | create and update keep category names unique |
| Categories.KeepOwnNameAllowed | backend/shoppingMall/src/main/java/org/example/shoppingmall/service/impl/CategoryServiceImpl.java:65-68 | resubmitting a category's own name is never a conflict |
| Categories.DeleteCategory | backend/shoppingMall/src/main/java/org/example/shoppingmall/service/impl/CategoryServiceImpl.java:92-100 | an unknown id fails CATEGORY_NOT_EXISTS, a category a product still uses is refused by the foreign key, and otherwise exactly that row is removed |
| Categories.UpdateCategoryStatus | backend/shoppingMall/src/main/java/org/example/shoppingmall/service/impl/CategoryServiceImpl.java:104-111 | it fails exactly for an unknown id; otherwise only the status changes, to the given value even when null |
| Categories.StatusUpdateIsPartialUpdate | backend/shoppingMall/src/main/java/org/example/shoppingmall/service/impl/CategoryServiceImpl.java:79-108 | a non-null status update equals the partial update carrying only that status, while a null one clears the status the partial update would keep |
| Categories.CreateThenGetThenDelete | backend/shoppingMall/src/main/java/org/example/shoppingmall/service/impl/CategoryServiceImpl.java:37-100 | a created category reads back at its save target as the returned DTO and, when it was inserted and no product uses it, deleting it restores the table apart from the advanced id counter |
| Files.WithLeadingSlash | backend/shoppingMall/src/main/java/org/example/shoppingmall/service/impl/FileServiceImpl.java:71-72 | the result starts with '/', equals the input when it already did, and is otherwise the input after one added '/' |
| Files.DropTrailingSlash | backend/shoppingMall/src/main/java/org/example/shoppingmall/service/impl/FileServiceImpl.java:73 | exactly one trailing '/' is removed when present and nothing else changes |
| Files.WithLeadingSlashIdempotent | backend/shoppingMall/src/main/java/org/example/shoppingmall/service/impl/LocalFileStorageServiceImpl.java:136-138 | adding the leading '/' twice is the same as once |
| Files.FilenameExtension | backend/shoppingMall/src/main/java/org/example/shoppingmall/service/impl/FileServiceImpl.java:38 | an extension is found only in a non-null path, has no '.' or '/', and is exactly what follows the path's last '.'; a path without '.' has none |
| Files.FilenameExtensionOfName | backend/shoppingMall/src/main/java/org/example/shoppingmall/service/impl/FileServiceImpl.java:38 | a name followed by '.' and a suffix free of '.' and '/' yields that suffix |
| Files.IsValidFileType | backend/shoppingMall/src/main/java/org/example/shoppingmall/service/impl/FileServiceImpl.java:176-188 | a type is accepted exactly when it is non-null and equals jpg, jpeg, png, gif or webp ignoring case |
| Files.FileTypeExamples | backend/shoppingMall/src/main/java/org/example/shoppingmall/service/impl/FileServiceImpl.java:176-188 | "PNG" and "jpeg" pass; null, "" and "bmp" do not |
| Files.UrlBase | backend/shoppingMall/src/main/java/org/example/shoppingmall/service/impl/FileServiceImpl.java:64-73 | the URL starts with the configured segment, "/uploads" when the segment is null, less at most one trailing '/' |
| Files.UrlRest | backend/shoppingMall/src/main/java/org/example/shoppingmall/service/impl/FileServiceImpl.java:71-72 | the folder part is empty or starts with '/', and the URL ends with the file name behind a '/' |
| Files.CheckUpload | backend/shoppingMall/src/main/java/org/example/shoppingmall/service/impl/FileServiceImpl.java:33-43 | missing or empty content fails VALIDATION_ERROR first; a name whose extension is not allowed fails VALIDATION_ERROR naming the extension; otherwise the allowed extension is returned |
| Files.UploadMultipart | backend/shoppingMall/src/main/java/org/example/shoppingmall/service/impl/FileServiceImpl.java:32-83 | failures of the checks come first; success happens exactly for a non-null folder without an I/O error, an I/O error is UPLOAD_FAILED, and the URL names the UUID file with the checked extension |
| Files.UploadBytes | backend/shoppingMall/src/main/java/org/example/shoppingmall/service/impl/FileServiceImpl.java:87-128 | the same checks and failures as the multipart upload, and the URL uses the caller's file name verbatim |
| Files.DeletePath | backend/shoppingMall/src/main/java/org/example/shoppingmall/service/impl/FileServiceImpl.java:133-157 | a path is derived exactly for a non-empty URL that starts with the segment, and it is what follows the segment |
| Files.DeleteFile | backend/shoppingMall/src/main/java/org/example/shoppingmall/service/impl/FileServiceImpl.java:133-174 | the result is true exactly when the URL passes the prefix test and the filesystem reports a file deleted; I/O errors give false |
| Files.UploadedUrlIsDeletable | backend/shoppingMall/src/main/java/org/example/shoppingmall/service/impl/FileServiceImpl.java:71-77 | every upload URL passes deleteFile's prefix test, and the path handed to the filesystem is the folder and file part, less its '/' when the segment ends in '/' |
| Files.UrlIsSegmentAndTail | backend/shoppingMall/src/main/java/org/example/shoppingmall/service/impl/FileServiceImpl.java:73-77 | an upload URL is the configured segment followed by the folder and file part, less its '/' when the segment ends in '/' |
| Files.DeletePathAfterSegment | backend/shoppingMall/src/main/java/org/example/shoppingmall/service/impl/FileServiceImpl.java:149-150 | for a URL that is the segment plus a tail, the derived path is the tail |
| Files.UploadThenDelete | backend/shoppingMall/src/main/java/org/example/shoppingmall/service/impl/FileServiceImpl.java:32-174 | a successful upload can be deleted by its URL, and the outcome is exactly the filesystem's |
| Files.FileExtension | backend/shoppingMall/src/main/java/org/example/shoppingmall/service/impl/LocalFileStorageServiceImpl.java:60-68 | the extension is "" exactly for a blank name or one without '.', and otherwise a suffix of the name starting at its last '.' |
| Files.FileExtensionOfName | backend/shoppingMall/src/main/java/org/example/shoppingmall/service/impl/LocalFileStorageServiceImpl.java:60-68 | a name ending in '.' and a dot-free suffix yields that suffix with its dot |
| Files.CleanSegment | backend/shoppingMall/src/main/java/org/example/shoppingmall/service/impl/LocalFileStorageServiceImpl.java:135-141 | the cleaned segment is empty or starts with '/'; it is the slash-prefixed segment with its trailing '/' removed when there is one, and unchanged otherwise |
| Files.CleanSegmentKeepsCleanSegment | backend/shoppingMall/src/main/java/org/example/shoppingmall/service/impl/LocalFileStorageServiceImpl.java:135-141 | a segment that starts with '/' and does not end with '/' is left unchanged |
| Files.StoragePath | backend/shoppingMall/src/main/java/org/example/shoppingmall/service/impl/LocalFileStorageServiceImpl.java:144 | the path is the context path, the cleaned segment, '/', and the file name, each in its place |
| Files.GetFileUrl | backend/shoppingMall/src/main/java/org/example/shoppingmall/service/impl/LocalFileStorageServiceImpl.java:130-149 | there is no URL exactly for a blank name; otherwise it is the builder's URL for the storage path |
| Files.StoreFile | backend/shoppingMall/src/main/java/org/example/shoppingmall/service/impl/LocalFileStorageServiceImpl.java:75-104 | an absent or empty file, a null name, or a cleaned name containing ".." fails IllegalArgument; success happens exactly otherwise without an I/O error, storing the file as the UUID plus the name's extension |
| Files.DeleteStored | backend/shoppingMall/src/main/java/org/example/shoppingmall/service/impl/LocalFileStorageServiceImpl.java:107-127 | a blank name fails IllegalArgument; otherwise only an I/O error fails, and a file is reported removed exactly when the filesystem removed one |
| Files.PatternBase | backend/shoppingMall/src/main/java/org/example/shoppingmall/config/MvcConfig.java:27-37 | the pattern starts with '/'; it is the segment ("/static/uploads_fallback" when null or empty) with '/' prefixed when missing, and with a trailing '/' removed exactly when it is longer than "/" |
| Files.ResourceLocation | backend/shoppingMall/src/main/java/org/example/shoppingmall/config/MvcConfig.java:48 | the location is "file:" and the absolute directory, ending in exactly the directory's own '/' or one added |
| Files.ResourceHandler | backend/shoppingMall/src/main/java/org/example/shoppingmall/config/MvcConfig.java:21-54 | no handler is registered exactly when the upload directory is null or empty; otherwise the pattern plus the double-star wildcard maps to a "file:" location ending in '/' |
| Files.UploadsAreServed | backend/shoppingMall/src/main/java/org/example/shoppingmall/config/MvcConfig.java:32-38 | with a segment of more than "/" that starts with '/', every upload URL lies under the pattern the handler serves |
| Files.DefaultSegmentsDiffer | backend/shoppingMall/src/main/java/org/example/shoppingmall/config/MvcConfig.java:28-31 | with a null segment, upload URLs under "/uploads" are not under the "/static/uploads_fallback" pattern the handler serves |
| Files.ConfiguredDefaultIsServed | backend/shoppingMall/src/main/java/org/example/shoppingmall/config/FileUploadConfig.java:26 | with the segment FileUploadConfig holds when none is configured, "/static/images", every upload URL lies under the pattern the handler serves |
| Files.EmptySegmentsDiffer | backend/shoppingMall/src/main/java/org/example/shoppingmall/config/MvcConfig.java:28-31 | with a segment configured as empty, upload URLs are "/<folder>/<name>" while the handler serves "/static/uploads_fallback", so no upload into the folders the services use is served |
| Carts.NewCart | backend/shoppingMall/src/main/java/org/example/shoppingmall/entity/Cart.java:107-109 | a cart built for a user belongs to that user and has no lines |
| Carts.NewCartItem | backend/shoppingMall/src/main/java/org/example/shoppingmall/entity/CartItem.java:54-55 | a new line is selected by default, is not yet linked to a cart and has no timestamps |
| Carts.OnCreate | backend/shoppingMall/src/main/java/org/example/shoppingmall/entity/CartItem.java:71-75 | persisting a line sets both timestamps to the clock and changes nothing else |
| Carts.OnUpdate | backend/shoppingMall/src/main/java/org/example/shoppingmall/entity/CartItem.java:77-80 | updating a line moves only its update time, to the clock |
| Carts.Flush | backend/shoppingMall/src/main/java/org/example/shoppingmall/entity/CartItem.java:77-80 | an unchanged line is not written and keeps its update time; a changed one is stamped with the clock |
| Carts.AddItem | backend/shoppingMall/src/main/java/org/example/shoppingmall/entity/Cart.java:82-87 | a null item leaves the cart alone; otherwise the item, linked to the cart, is appended and nothing else changes |
| Carts.RemoveItem | backend/shoppingMall/src/main/java/org/example/shoppingmall/entity/Cart.java:95-100 | a null item leaves the cart alone; otherwise one equal line leaves the multiset of lines, the item is unlinked, and only the lines change |
| Carts.AddThenRemoveItem | backend/shoppingMall/src/main/java/org/example/shoppingmall/entity/Cart.java:82-100 | adding a line that was not in the cart and removing it again gives back the cart and the unlinked line |
| Carts.GetOrCreateUserCart | backend/shoppingMall/src/main/java/org/example/shoppingmall/service/impl/CartServiceImpl.java:45-54 | an existing cart is returned with nothing changed; otherwise a new empty cart is stored under the next cart id; other carts never change and validity is kept |
| Carts.GetOrCreateIdempotent | backend/shoppingMall/src/main/java/org/example/shoppingmall/service/impl/CartServiceImpl.java:45-54 | a second call returns the cart the first call produced and changes nothing, so a user never gets a second cart |
| Carts.GetCartCount | backend/shoppingMall/src/main/java/org/example/shoppingmall/service/impl/CartServiceImpl.java:56-62 | the count is the number of lines in the user's cart, and 0 when there is none |
| Carts.ViewOf | backend/shoppingMall/src/main/java/org/example/shoppingmall/service/impl/CartServiceImpl.java:72-74 | the view carries the line's id, product id, quantity and selection |
| Carts.GetCartList | backend/shoppingMall/src/main/java/org/example/shoppingmall/service/impl/CartServiceImpl.java:64-75 | the views of the user's lines, one per line and in order, and empty when there is no cart |
| Carts.AddToCart | backend/shoppingMall/src/main/java/org/example/shoppingmall/service/impl/CartServiceImpl.java:77-127 | corrected (the sum taken exactly, not in 32-bit `int`): an unknown product fails PRODUCT_NOT_EXISTS exactly when it is unknown, a quantity above the stock fails STOCK_NOT_ENOUGH, a summed quantity above the stock fails STOCK_NOT_ENOUGH with "添加后总数量将超过库存", nothing else fails, and on success the user has a cart and no other cart changes |
| Carts.AddToCartExistingLine | backend/shoppingMall/src/main/java/org/example/shoppingmall/service/impl/CartServiceImpl.java:96-104 | corrected (the sum taken exactly, not in 32-bit `int`): with a line for the product it succeeds exactly when the summed quantity fits the stock, else fails STOCK_NOT_ENOUGH with "添加后总数量将超过库存"; on success that line alone changes, to the summed quantity and selected, and no line is added |
| Carts.AddToCartNewLine | backend/shoppingMall/src/main/java/org/example/shoppingmall/service/impl/CartServiceImpl.java:105-113 | without a line for the product it succeeds and appends one selected line with exactly the requested quantity, keeping the old lines as they were |
| Carts.AddToCartValid | backend/shoppingMall/src/main/java/org/example/shoppingmall/service/impl/CartServiceImpl.java:77-127 | a successful add keeps every cart well formed, in particular with at most one line per product |
| Carts.AddToCartTwiceAccumulates | backend/shoppingMall/src/main/java/org/example/shoppingmall/service/impl/CartServiceImpl.java:91-104 | adding the same product twice within stock leaves one line whose quantity is the sum of both amounts |
| Carts.IntAdd | backend/shoppingMall/src/main/java/org/example/shoppingmall/service/impl/CartServiceImpl.java:99 | Java `int` addition: the result is in the `int` range, congruent to the exact sum modulo 2^32, and equal to it whenever the exact sum is in range |
| Carts.AddToCartAsWritten | backend/shoppingMall/src/main/java/org/example/shoppingmall/service/impl/CartServiceImpl.java:99-104 | as written, the new quantity is the wrapped `int` sum; wherever the exact sum of the line and the request is an `int` it behaves as the corrected add |
| Carts.AddToCartAsWrittenStoresNegative | backend/shoppingMall/src/main/java/org/example/shoppingmall/service/impl/CartServiceImpl.java:99-100 | as written, a stock of 2,000,000,000, a line of 2,000,000,000 and a request of 2,000,000,000 pass the stock test and store -294,967,296, where the corrected add refuses with STOCK_NOT_ENOUGH and "添加后总数量将超过库存" |
| Carts.SelectionKeepsValid | backend/shoppingMall/src/main/java/org/example/shoppingmall/service/impl/CartServiceImpl.java:200-214 | a successful selection update keeps every cart well formed |
| Carts.UpdateCartItemQuantity | backend/shoppingMall/src/main/java/org/example/shoppingmall/service/impl/CartServiceImpl.java:130-170 | a line missing from the caller's cart fails CART_ITEM_NOT_EXISTS with "购物车项不存在或不属于当前用户", a line of another cart with "购物车项不属于当前用户的购物车", a positive quantity above the stock STOCK_NOT_ENOUGH, and nothing else fails; a non-positive quantity answers a view with no ids and quantity 0; a positive one answers that quantity; no cart is dropped |
| Carts.UpdateQuantityPositive | backend/shoppingMall/src/main/java/org/example/shoppingmall/service/impl/CartServiceImpl.java:148-153 | a positive quantity succeeds exactly when the stock covers it, and then changes only that line's quantity |
| Carts.RemoveFromCart | backend/shoppingMall/src/main/java/org/example/shoppingmall/service/impl/CartServiceImpl.java:173-185 | it fails, with CART_ITEM_NOT_EXISTS and "购物车项不存在或不属于当前用户", exactly when the user's cart lacks the line; otherwise one line is removed and no other cart changes |
| Carts.RemoveFromCartSpec | backend/shoppingMall/src/main/java/org/example/shoppingmall/service/impl/CartServiceImpl.java:146-185 | in a well-formed cart removal keeps exactly the other lines in order, and setting the quantity to 0 is the same removal |
| Carts.RemoveKeepsValid | backend/shoppingMall/src/main/java/org/example/shoppingmall/service/impl/CartServiceImpl.java:172-185 | removing a line keeps every cart well formed: lines linked to their cart, one line per product, distinct ids, positive quantities |
| Carts.UpdateQuantityKeepsValid | backend/shoppingMall/src/main/java/org/example/shoppingmall/service/impl/CartServiceImpl.java:129-170 | changing a quantity, or dropping the line for a quantity of 0 or less, keeps every cart well formed |
| Carts.ClearCart | backend/shoppingMall/src/main/java/org/example/shoppingmall/service/impl/CartServiceImpl.java:188-197 | the user's cart keeps its id but loses every line, no other cart changes, and validity is kept |
| Carts.UpdateCartItemSelected | backend/shoppingMall/src/main/java/org/example/shoppingmall/service/impl/CartServiceImpl.java:200-214 | it fails, with CART_ITEM_NOT_EXISTS and "购物车项不存在或不属于当前用户", exactly when the user's cart lacks the line; otherwise only that line's selection changes, to the given nullable value, which the view reports |
| Carts.SelectAll | backend/shoppingMall/src/main/java/org/example/shoppingmall/service/impl/CartServiceImpl.java:226 | every line takes the flag, and a line whose flag already had that value is not re-stamped |
| Carts.UpdateAllCartItemsSelected | backend/shoppingMall/src/main/java/org/example/shoppingmall/service/impl/CartServiceImpl.java:217-232 | every line of the user's cart takes the flag and the views report it, one per line; an empty cart answers an empty list; other carts are untouched |
| Carts.SelectionKeepsLines | backend/shoppingMall/src/main/java/org/example/shoppingmall/service/impl/CartServiceImpl.java:217-232 | selecting all changes no id, product or quantity of any line and keeps the state valid |
| Users.TargetRole | backend/shoppingMall/src/main/java/org/example/shoppingmall/service/impl/UserServiceImpl.java:81-90 | a seller is assigned exactly for role code 1; every other code, null included, gets the buyer role |
| Users.ServiceRoleCode | backend/shoppingMall/src/main/java/org/example/shoppingmall/service/impl/UserServiceImpl.java:121-139 | the service reports 1 exactly when the first role iterated equals ROLE_SELLER ignoring case; otherwise, and with no roles, 0 |
| Users.ControllerRoleCode | backend/shoppingMall/src/main/java/org/example/shoppingmall/controller/UserController.java:155-171 | the controller reports 1 exactly when some role is spelled ROLE_SELLER exactly; otherwise, and with no roles, 0 |
| Users.ServiceUserDto | backend/shoppingMall/src/main/java/org/example/shoppingmall/service/impl/UserServiceImpl.java:109-118 | null converts to null; a user converts to a copy of its fields without the password, carrying the service's role code |
| Users.ControllerUserDto | backend/shoppingMall/src/main/java/org/example/shoppingmall/controller/UserController.java:146-152 | null converts to null; a user converts to a copy without the password, carrying the controller's role code |
| Users.ConversionsHidePassword | backend/shoppingMall/src/main/java/org/example/shoppingmall/service/impl/UserServiceImpl.java:118 | changing only the password changes neither conversion, and both always report 0 or 1 |
| Users.ConversionsAgreeOnOneRole | backend/shoppingMall/src/main/java/org/example/shoppingmall/controller/UserController.java:155-171 | for a user with no roles or one role whose spelling is exact or unrelated to ROLE_SELLER, the two conversions agree |
| Users.ConversionsCanDisagree | backend/shoppingMall/src/main/java/org/example/shoppingmall/service/impl/UserServiceImpl.java:123-126 | they disagree on a buyer-then-seller role order and on a lower-case seller role name |
| Users.NewUserDetails | backend/shoppingMall/src/main/java/org/example/shoppingmall/security/CustomUserDetails.java:18-23 | construction fails with IllegalArgument exactly for a null user and otherwise wraps that user |
| Users.Authorities | backend/shoppingMall/src/main/java/org/example/shoppingmall/security/CustomUserDetails.java:49-63 | the authorities are exactly the user's role names, empty exactly when the user has no roles |
| Users.SellerId | backend/shoppingMall/src/main/java/org/example/shoppingmall/security/CustomUserDetails.java:148-160 | the seller id is present exactly when ROLE_SELLER is an authority, and is then the user's id |
| Users.SellerIdMatchesControllerRole | backend/shoppingMall/src/main/java/org/example/shoppingmall/security/CustomUserDetails.java:154-157 | the security layer treats a user as a seller exactly when the controller reports role code 1 |
| Users.StringHashCode | backend/shoppingMall/src/main/java/org/example/shoppingmall/security/CustomUserDetails.java:143-146 | the hash is a signed 32-bit value congruent to the wrapping 31-polynomial accumulator of the characters |
| Users.DetailsEqualityLaws | backend/shoppingMall/src/main/java/org/example/shoppingmall/security/CustomUserDetails.java:134-146 | equality by username is reflexive, symmetric and transitive, ignores id and roles, and equal details hash alike |
| Users.StringHashExamples | backend/shoppingMall/src/main/java/org/example/shoppingmall/security/CustomUserDetails.java:145 | the hash of "a" is 97, of "ab" 3105, and of six z's a negative number after wrap-around |
| Users.AddRole | backend/shoppingMall/src/main/java/org/example/shoppingmall/entity/User.java:111-115 | the role set gains exactly the role, adding a held role changes nothing, and no other field changes |
| Users.RemoveRole | backend/shoppingMall/src/main/java/org/example/shoppingmall/entity/User.java:117-121 | the role set loses exactly the role and no other field changes |
| Users.AddThenRemoveRole | backend/shoppingMall/src/main/java/org/example/shoppingmall/entity/User.java:111-121 | removing a role just added gives back the original user; removing an absent role is a no-op |
| Users.SellerRoleDecidesSellerId | backend/shoppingMall/src/main/java/org/example/shoppingmall/entity/User.java:111-121 | after adding ROLE_SELLER the seller id is the user's id; after removing it there is none |
| Users.Register | backend/shoppingMall/src/main/java/org/example/shoppingmall/service/impl/UserServiceImpl.java:52-107 | a taken username fails USER_EXISTS before a taken email is checked; success appends one user with a fresh id, the username as nickname, the encoded password and exactly the one mapped role and gender 0, creating that role if missing, and returns the user's converted DTO |
| Users.RegisterRoleRoundTrip | backend/shoppingMall/src/main/java/org/example/shoppingmall/service/impl/UserServiceImpl.java:81-139 | the returned role code is 1 exactly when the requested code was 1, and the controller converts the stored user to the same DTO |
| Users.RegisterKeepsValid | backend/shoppingMall/src/main/java/org/example/shoppingmall/service/impl/UserServiceImpl.java:55-60 | registration keeps usernames and emails unique and ids below the next id |
| Users.SanitizeUsername | backend/shoppingMall/src/main/java/org/example/shoppingmall/service/impl/UserServiceImpl.java:257 | every character outside letters, digits, '.' and '-' becomes '_' and all others are kept in place |
| Users.SanitizeLaws | backend/shoppingMall/src/main/java/org/example/shoppingmall/service/impl/UserServiceImpl.java:257 | the result is made of safe characters and '_', sanitizing is idempotent, and a safe name is unchanged |
| Users.MimeExtension | backend/shoppingMall/src/main/java/org/example/shoppingmall/service/impl/UserServiceImpl.java:239-253 | an extension exists exactly for image/jpeg, image/jpg, image/png and image/gif in any letter case |
| Users.MimeType | backend/shoppingMall/src/main/java/org/example/shoppingmall/service/impl/UserServiceImpl.java:237 | a MIME type is read exactly when the metadata has a ';' that the first ':' (if any) precedes |
| Users.AvatarMime | backend/shoppingMall/src/main/java/org/example/shoppingmall/service/impl/UserServiceImpl.java:228-237 | a data URI that does not split into exactly two parts fails VALIDATION_ERROR with "无效的头像数据: 无效的Base64数据URI格式"; one whose payload does not decode fails VALIDATION_ERROR with "无效的头像数据: " and the decoder's message; metadata without a MIME type fails UPLOAD_FAILED with "头像上传处理失败，请稍后再试。"; success yields the metadata's MIME type |
| Users.AvatarExtension | backend/shoppingMall/src/main/java/org/example/shoppingmall/service/impl/UserServiceImpl.java:228-277 | split and decode failures keep their VALIDATION_ERROR and message; a readable but unsupported MIME type ends as UPLOAD_FAILED with "头像上传处理失败，请稍后再试。"; supported types give their extension |
| Users.AvatarExtensionFixed | backend/shoppingMall/src/main/java/org/example/shoppingmall/service/impl/UserServiceImpl.java:250-252 | earlier failures are kept; an unsupported MIME type fails VALIDATION_ERROR with "不支持的图片类型: " and the type; it succeeds for the same inputs as the code as written, with the same extension |
| Users.UnsupportedAvatarTypeIsUploadFailed | backend/shoppingMall/src/main/java/org/example/shoppingmall/service/impl/UserServiceImpl.java:250-276 | a well-formed data URI with a decodable payload and an unsupported type is UPLOAD_FAILED with "头像上传处理失败，请稍后再试。" as written, but VALIDATION_ERROR with "不支持的图片类型: " and the type when corrected |
| Users.BmpIsUnsupported | backend/shoppingMall/src/main/java/org/example/shoppingmall/service/impl/UserServiceImpl.java:250-252 | image/bmp has no extension |
| Users.EmptyPayloadIsValidationError | backend/shoppingMall/src/main/java/org/example/shoppingmall/service/impl/UserServiceImpl.java:228-230 | a data URI with nothing after the comma splits into one part and fails VALIDATION_ERROR with "无效的头像数据: 无效的Base64数据URI格式" |
| Users.NewAvatar | backend/shoppingMall/src/main/java/org/example/shoppingmall/service/impl/UserServiceImpl.java:223-293 | a null or empty avatar keeps the stored one; a non-empty string not starting with "data:image" is stored verbatim; a data URI gives the extension step's error, or the URL the file service returns for "avatar_" + sanitised username + "_" + uuid + extension, or UPLOAD_FAILED with "头像上传处理失败，请稍后再试。" when the upload fails |
| Users.UpdateUserInfo | backend/shoppingMall/src/main/java/org/example/shoppingmall/service/impl/UserServiceImpl.java:188-300 | an anonymous caller is UNAUTHORIZED and an unknown one USER_NOT_EXISTS with "用户 " + username + " 不存在"; changing to an email another user holds fails, exactly; then an avatar failure is the call's failure; it succeeds exactly otherwise, changing only the caller's row: exactly the non-null fields overwritten, the avatar as NewAvatar gives it, id, username, password and roles kept, and a DTO with no role returned |
| Users.UpdateUserInfoKeepsValid | backend/shoppingMall/src/main/java/org/example/shoppingmall/service/impl/UserServiceImpl.java:203-208 | an update keeps usernames and emails unique |
| Users.UpdateOwnEmailAndEmptyAvatar | backend/shoppingMall/src/main/java/org/example/shoppingmall/service/impl/UserServiceImpl.java:203-292 | resubmitting one's own email with an empty avatar succeeds and leaves the avatar as it was |
| Phone.IsValid | backend/shoppingMall/src/main/java/org/example/shoppingmall/validation/impl/ValidPhoneNumberWithCountryValidator.java:33-147 | a null object is valid and an unreadable one invalid with the internal-error message; with neither field provided it is valid; a country alone fails with the phone-required message exactly when nulls are not allowed; a phone alone fails with the country-required message exactly when it is not a valid international number and nulls are not allowed; with both, it is valid exactly when the number parses as valid for the upper-cased country; every rejection of a readable object names a property |
| Phone.IsValidMatchesRules | backend/shoppingMall/src/main/java/org/example/shoppingmall/validation/impl/ValidPhoneNumberWithCountryValidator.java:53-146 | the validator rejects exactly what an independent statement of the rules rejects |
| Phone.AllowNullFieldsOnlyRelaxes | backend/shoppingMall/src/main/java/org/example/shoppingmall/validation/impl/ValidPhoneNumberWithCountryValidator.java:57-113 | whatever passes without allowNullFields also passes with it |
| Phone.NoPhoneNoLibrary | backend/shoppingMall/src/main/java/org/example/shoppingmall/validation/impl/ValidPhoneNumberWithCountryValidator.java:86-95 | without a phone number the verdict does not depend on the phone-number library |
| Phone.ToUpperKeepsBlank | backend/shoppingMall/src/main/java/org/example/shoppingmall/validation/impl/ValidPhoneNumberWithCountryValidator.java:53-54 | upper-casing keeps a blank string blank and a non-blank one non-blank |
| Phone.CountryCaseIrrelevant | backend/shoppingMall/src/main/java/org/example/shoppingmall/validation/impl/ValidPhoneNumberWithCountryValidator.java:130 | whether a DTO passes does not depend on the letter case of its country code |
| CartStore.TotalItemsAppend | frontend/shoppingmall/src/store/modules/cart.js:25 | the total quantity of two runs of lines is the sum of their totals |
| CartStore.TotalItemsBounds | frontend/shoppingmall/src/store/modules/cart.js:25 | the total quantity is never negative when no quantity is, and is at least the number of lines when every quantity is positive |
| CartStore.CartItemCount | frontend/shoppingmall/src/store/modules/cart.js:27 | the number of lines: 0 exactly for an empty cart, and never more than the total quantity when every quantity is positive |
| CartStore.TotalItemsUpdate | frontend/shoppingmall/src/store/modules/cart.js:25 | changing one line's quantity changes the total by the difference |
| CartStore.TotalItemsRemove | frontend/shoppingmall/src/store/modules/cart.js:25 | removing a line lowers the total by its quantity |
| CartStore.QuantityOf | frontend/shoppingmall/src/store/modules/cart.js:58 | a number is kept, and undefined, null or a boolean gives 0 |
| CartStore.SelectedOf | frontend/shoppingmall/src/store/modules/cart.js:59 | undefined counts as selected, null as unselected, and anything else by JavaScript truthiness |
| CartStore.MapApiItem | frontend/shoppingmall/src/store/modules/cart.js:55-72 | the mapped line keeps the cart-item id and records the product id |
| CartStore.MapApiItems | frontend/shoppingmall/src/store/modules/cart.js:55-72 | one mapped line per server item, in order |
| CartStore.MappedLinesKnowTheirProduct | frontend/shoppingmall/src/store/modules/cart.js:55-72 | every line loaded from the server knows its product id |
| CartStore.AddToCart | frontend/shoppingmall/src/store/modules/cart.js:106-116 | as written: the total quantity grows by one; a new line, the product with quantity 1 and selected, is appended exactly when no line's id equals the product id; otherwise the first line whose id equals it gains one and every other line is unchanged |
| CartStore.AddToCartMatchesWrongLine | frontend/shoppingmall/src/store/modules/cart.js:110 | on server-loaded lines a product already in the cart gets a second line, and a line whose cart-item id equals the product id is incremented although it holds another product |
| CartStore.AddToCartFixed | frontend/shoppingmall/src/store/modules/cart.js:106-116 | corrected: the total grows by one, a line is appended exactly when no line holds the product, and otherwise the first line holding it gains one and every other line is unchanged |
| CartStore.AddToCartFixedKeepsOneLinePerProduct | frontend/shoppingmall/src/store/modules/cart.js:106-116 | the corrected add keeps at most one line per product |
| CartStore.AddToCartAgreesOnClientLines | frontend/shoppingmall/src/store/modules/cart.js:106-116 | on lines built by the client alone the as-written and corrected adds agree |
| CartStore.UpdateQuantityLocal | frontend/shoppingmall/src/store/modules/cart.js:146-157 | an unknown id changes nothing; for a known one a quantity of 0 or less removes exactly that line and any other quantity replaces it, and the total changes accordingly |
| CartStore.RestoreQuantity | frontend/shoppingmall/src/store/modules/cart.js:201-207 | the remembered line gets its old quantity back and the list keeps its length |
| CartStore.UpdateQuantityRollback | frontend/shoppingmall/src/store/modules/cart.js:141-238 | a positive update followed by the rollback restores the cart |
| CartStore.ToggleSelect | frontend/shoppingmall/src/store/modules/cart.js:240-256 | an unknown id fails; otherwise only the first line with the id flips its selection |
| CartStore.UndoToggle | frontend/shoppingmall/src/store/modules/cart.js:286-297 | the toggled line's selection is set to the negation of the new state |
| CartStore.ToggleSelectRollback | frontend/shoppingmall/src/store/modules/cart.js:240-299 | a toggle followed by its rollback restores the cart, and repeating the rollback changes nothing more |
| CartStore.ToggleKeepsTotals | frontend/shoppingmall/src/store/modules/cart.js:240-256 | toggling never changes the total quantity |
| CartStore.ClearCart | frontend/shoppingmall/src/store/modules/cart.js:302-323 | the list ends empty exactly when the user is not logged in, the server confirms, or it was empty already; otherwise the copy taken before is restored |
| CartStore.RemoveItemsByIds | frontend/shoppingmall/src/store/modules/cart.js:330-343 | a non-array argument changes nothing; otherwise the lines with listed ids are filtered out |
| CartStore.Keep | frontend/shoppingmall/src/store/modules/cart.js:340 | no kept line has a listed id, every kept line comes from the list, and the list does not grow |
| CartStore.KeepExactlyUnlisted | frontend/shoppingmall/src/store/modules/cart.js:340 | a line survives exactly when it was in the list and its id is not listed |
| CartStore.KeepTwice | frontend/shoppingmall/src/store/modules/cart.js:340 | removing ids in two steps removes their union, and removing the same ids twice removes them once |
| CartStore.KeepIsSubmultiset | frontend/shoppingmall/src/store/modules/cart.js:340 | filtering never duplicates a line |
| CartStore.KeepUnlistedLines | frontend/shoppingmall/src/store/modules/cart.js:340 | when no line is listed, the list is kept as it was |
| RouterGuard.RoleRoutesRequireAuth | frontend/shoppingmall/src/router/index.js:117-146 | every route in the table that checks a role also requires a token |
| RouterGuard.ParseInt | frontend/shoppingmall/src/router/index.js:169 | a string that is empty after its leading white space parses to NaN |
| RouterGuard.NatToString | frontend/shoppingmall/src/router/index.js:169 | the decimal rendering of a number is non-empty, all digits, and has no leading zero unless it is a single digit |
| RouterGuard.ParseIntOfToString | frontend/shoppingmall/src/router/index.js:169 | parseInt reads back exactly the number that toString wrote |
| RouterGuard.Guard | frontend/shoppingmall/src/router/index.js:167-178 | a route that requires authentication without a token goes to /login; otherwise it goes to / exactly when it names a non-zero role other than the parsed stored role; public routes always proceed |
| RouterGuard.NoStoredRoleIsZero | frontend/shoppingmall/src/router/index.js:169 | a missing or empty stored role counts as role 0 |
| RouterGuard.UserRole | frontend/shoppingmall/src/router/index.js:169 | a missing or empty stored role is role 0; any other stored string is its parseInt |
| RouterGuard.StoredCodeOpensItsRoutes | frontend/shoppingmall/src/router/index.js:117-176 | a signed-in user whose stored role is the code n is let through to every route with role n |
| RouterGuard.AdminRouteIsAdmin | frontend/shoppingmall/src/router/index.js:141-146 | the admin dashboard is the route that demands role 2 |
| RouterGuard.StoredCodeIsNotAdmin | frontend/shoppingmall/src/router/index.js:171-174 | a stored role of 0 or 1 never passes the admin route |
| RouterGuard.AdminRouteUnreachable | frontend/shoppingmall/src/store/modules/user.js:28-60 | whichever conversion produced the stored role code, the admin route never proceeds |

## Left out

- **Authentication and the security context.** This covers JWT, the filters and `getCurrentUser` (for example CartServiceImpl.java:234-243). The caller's user id is a parameter, and the password encoder is a function parameter.
- **UserServiceImpl's login, getCurrentUser, updatePassword, uploadAvatar and getUserById.** They are lookups through the security stack or the encoder and carry no logic of their own.
- **CategoryServiceImpl's getAllCategories and uploadCategoryIcon.** The first is a plain mapping. The second only delegates to the file service, which `Files.UploadMultipart` models.
- **CommentServiceImpl's getLatestProductComments and getProductAverageRating.** The first needs the repository's time ordering. The second computes a `Double` average.
- **CouponServiceImpl's getAllCoupons.** It is a paged repository read.
- **ProductServiceImpl's uploadProductImage.** It delegates to the file service.
- **Execution of the JPQL queries.** The model covers only the choice of query, its parameters, and the page index. Database sorting and paging are not modelled.
- **Concurrency.** Stock is updated by an unlocked read-modify-write, and the model is sequential. It claims nothing about concurrent checkouts.
- **Caching, Statistics, Banner, CountryService and the controllers.** The one exception is UserController's DTO conversion.
- **Floating point.** This covers the cart store's `totalPrice` (parseFloat), the average rating, and PageResult's double cast. Money is integer cents throughout.
- **The filesystem, Base64 decoding, `StringUtils.cleanPath` and `ServletUriComponentsBuilder`.** Their outcomes and the messages of their exceptions are parameters; the model does not compute them.
- **The network and localStorage halves of the cart store's actions.** This includes fetchCart's fallback to localStorage and the merge of a server reply after updateQuantity. The local transforms and the rollbacks are modelled.
- **libphonenumber's parsing and validity rules.** They are parameters.
- **JSON serialisation.** The stored `images`, `params` and `specs` are kept as Dafny sequences or strings, not as JSON text.
- **Entity timestamps other than the cart line's lifecycle hooks and the order's pay, delivery and receive times.**
- JavaStrings.ToLower, JavaStrings.ToUpper: fold only the ASCII letters, and the model accepts the divergences this causes on non-ASCII input. Java's equalsIgnoreCase also matches through Unicode folding, so `"aſc".equalsIgnoreCase("asc")` is true in Java and false here. toLowerCase uses the default locale, so under a Turkish locale "PRICE" lowers to "prıce" and misses the sort whitelist; `Products.CreateSortByKey` assumes a locale without such rules.
- Users.StringHashCode: treats each `char` as one UTF-16 unit, which is exact only for the Basic Multilingual Plane.
- Users.AddRole: a user's roles are a `HashSet`, whose iteration order the model fixes as insertion order. The first-role conversion depends on that order.
- Categories.CreateCategory, Coupons.CreateCoupon: a DTO id that names no stored row is saved as a fresh row under the next id, which is what Hibernate before 6.6 does with such a merge; Hibernate 6.6 and later reject it as a stale entity.
- Orders.GetOrderDetailsByOrderNo: returns the order row itself. The field-by-field copy into `OrderResponseDto` (convertToOrderResponseDto) is not modelled, and neither is that copy in createOrder and the other order queries.
- Orders.CreateOrder: the `shippingAddressText` and `receiverAddress` columns are not part of the order row. OrderServiceImpl.java:75-76 fills both with the same string as `shippingAddress`, which the model keeps.
- Carts.AddToCart: requires a quantity of at least 1, which the request DTO's bean validation enforces before the service runs.
- Carts.AddToCart, Carts.AddToCartExistingLine: take the summed quantity exactly, where CartServiceImpl.java:99 adds in 32-bit `int` and can wrap. This is the corrected behaviour; the wrap is modelled by `Carts.AddToCartAsWritten` and recorded under Findings.
- Orders.Restock, Coupons.UseCoupon: add without 32-bit wrap-around. `getStock() + getQuantity()` (OrderServiceImpl.java:238) and `getUsedCount() + 1` (CouponServiceImpl.java:197) are Java `int` sums and wrap past 2,147,483,647; the model's stock and used count are unbounded.
- Column lengths: the model's strings are unbounded. The database rejects, for example, a coupon code over 50 characters (Coupon.java:34) or an image URL over 255 (Product.java:67); those failures are not modelled.

## Findings

| source | as written | input that shows it | evidently intended | confidence | as-written member | corrected member |
|---|---|---|---|---|---|---|
| backend/shoppingMall/src/main/java/org/example/shoppingmall/service/impl/AddressServiceImpl.java:70-75 | the DTO is copied onto the row before the test `dto.isDefault && !address.isDefault`, so the test is always false and the user's other defaults are never cleared | user 7 owns address 0 (default) and address 1; updating address 1 with isDefault true leaves both default, and findByUserIdAndIsDefaultTrue then fails | test the row's flag before the copy, so an address made default clears the user's others | not executed | Addresses.UpdateAddress, Addresses.UpdateAddressLeavesTwoDefaults | Addresses.UpdateAddressFixed, Addresses.UpdateAddressFixedKeepsValid |
| backend/shoppingMall/src/main/java/org/example/shoppingmall/service/impl/CartServiceImpl.java:99-100 | the line's quantity and the request are added in 32-bit `int`, so a large sum wraps negative and passes the stock test | stock 2,000,000,000, an existing line of 2,000,000,000, and a request of 2,000,000,000: the sum wraps to -294,967,296, the add succeeds and the line stores that quantity | refuse with STOCK_NOT_ENOUGH whenever the true sum exceeds the stock | not executed | Carts.AddToCartAsWritten, Carts.AddToCartAsWrittenStoresNegative | Carts.AddToCart, Carts.AddToCartValid |
| backend/shoppingMall/src/main/java/org/example/shoppingmall/service/impl/CouponServiceImpl.java:196-200 | usedCount is incremented before `user.removeCoupon(coupon)`, and Coupon's Lombok hashCode covers usedCount, so the HashSet no longer finds the coupon and the user keeps it | any successful use: the same user can use the coupon again without a new assignment, and usedCount grows by 2 | a used coupon leaves the user's set, so a second use fails | not executed | Coupons.UseCouponAsWritten, Coupons.UseCouponAsWrittenRepeats | Coupons.UseCoupon, Coupons.UseCouponOnce |
| backend/shoppingMall/src/main/java/org/example/shoppingmall/service/impl/ProductServiceImpl.java:475-482 | the whitelist is matched in lower case, but the caller's original string is passed to `Sort.by` | sort "createtime" (no such property; the field is createTime) or "Price" | sort by the entity's property for the accepted key | not executed | Products.CreateSort, Products.CreateSortNamesMissingProperty | Products.CreateSortFixed |
| backend/shoppingMall/src/main/java/org/example/shoppingmall/service/impl/ProductServiceImpl.java:331 | the bean copy does not skip isFeatured, so a DTO without it writes null into the NOT NULL column, although 394-396 guard exactly that case | an update of an existing product whose DTO leaves isFeatured null fails on save | keep the stored flag when the DTO leaves it null | not executed | Products.UpdateProduct, Products.UpdateWithoutFeaturedFails | Products.UpdateProductFixed, Products.UpdateFixedWithoutFeaturedKeepsFlag |
| backend/shoppingMall/src/main/java/org/example/shoppingmall/service/impl/ProductServiceImpl.java:340-346 | any non-blank imageUrl is decoded as Base64, including the stored URL that the edit form sends back | an update whose imageUrl is the product's current URL (containing '.' or ':') fails with 400 | keep a URL that is already stored, as the images list does at line 360 | not executed | Products.UpdateProduct, Products.UpdateResendingImageUrlFails | Products.UpdateProductFixed, Products.UpdateFixedOwnViewIsNoOp |
| backend/shoppingMall/src/main/java/org/example/shoppingmall/service/impl/UserServiceImpl.java:252 | the VALIDATION_ERROR thrown for an unsupported image type is caught by the generic handler at 273-276 and reported as UPLOAD_FAILED | a well-formed data URI of type image/bmp with a decodable payload | report VALIDATION_ERROR, as the throw says | not executed | Users.AvatarExtension, Users.UnsupportedAvatarTypeIsUploadFailed | Users.AvatarExtensionFixed |
| frontend/shoppingmall/src/store/modules/cart.js:110 | the existing line is looked up by comparing the line's id with the product id, but lines loaded from the server (55-57) carry the cart item's id | a loaded line (id 7, product 3) plus adding product 3 gives two lines for product 3; a loaded line (id 3, product 9) plus adding product 3 increments the product-9 line | match the line by the product it holds | not executed | CartStore.AddToCart, CartStore.AddToCartMatchesWrongLine | CartStore.AddToCartFixed, CartStore.AddToCartFixedKeepsOneLinePerProduct |

## Notes

- **Files.DefaultSegmentsDiffer and Files.EmptySegmentsDiffer.** When nothing is configured, FileUploadConfig holds "/static/images" and both sides agree (`Files.ConfiguredDefaultIsServed`). The two fallbacks disagree. With a null segment, FileServiceImpl builds "/uploads/..." URLs. Configuration binding never produces null, so this needs the field to be set to null by other means. With a segment configured as empty, FileServiceImpl keeps "" and builds "/<folder>/<name>". In both cases MvcConfig serves "/static/uploads_fallback/**", and an uploaded file is not reachable under its URL.
- **RouterGuard.AdminRouteUnreachable.** Both user conversions yield role code 0 or 1, and the stored role is that code. The admin route asks for role 2, so the guard never lets anyone onto it.
- **Coupons.UsedCountCanExceedTotal.** useCoupon does not re-check usedCount against totalCount, so repeated use can push usedCount past totalCount.
- **Addresses.SetDefaultRowAloneBreaksInvariant.** The repository's own setDefaultAddress turns one row on and clears nothing. The service never calls it.
- **Files.UploadMultipart and Files.UploadBytes.** A null folder reaches `Paths.get` and throws. The model reports this as `NullPointer`.
- **Category icons.** Category.java declares no `icon` field, although CategoryServiceImpl calls `setIcon`. The model gives the row an icon, as the service expects.
- **Categories.CreateCategory and Coupons.CreateCoupon.** Both entities take their id from the DTO through the bean copy, so a create request that carries a stored id rewrites that row instead of adding one. For a coupon this also resets its used count to 0 while its holders keep it (`Coupons.CreateWithStoredIdResetsUsage`, `Categories.CreateWithStoredIdReplaces`).
- **AWAITING_REVIEW.** OrderServiceImpl.java:388 names this status, but it is not an `OrderStatus` constant. The model leaves it out.
- **Files.DeleteStored.** LocalFileStorageServiceImpl's deleteFile returns nothing. The model reports whether a file was removed as `Ok(true)` or `Ok(false)`, which distinguishes the two outcomes the source only logs.
