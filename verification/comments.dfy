/**
 * Product comments: CommentServiceImpl over the comments table, including
 * the ';'-joined image list stored in one column and split again on read.
 */
module Comments {
  import opened Wrappers
  import opened JavaStrings
  import opened ResultCodes

  const ImageSeparator: char := ';'

  /** A comment row. rating and content are NOT NULL columns; order_item_id is unique. */
  datatype Comment = Comment(
    id: nat,
    userId: nat,
    productId: nat,
    orderItemId: Option<nat>,
    rating: int,
    content: string,
    images: Option<string>,
    isAnonymous: bool,
    visible: bool,
    replyContent: Option<string>,
    replyTime: Option<int>)

  /** The request body of create and update. */
  datatype CommentDto = CommentDto(
    productId: Option<nat>,
    orderItemId: Option<nat>,
    rating: Option<int>,
    content: Option<string>,
    images: Option<seq<string>>,
    isAnonymous: Option<bool>,
    visible: Option<bool>)

  /** convertEntityToDto without the user and product display fields. */
  datatype CommentView = CommentView(
    id: nat,
    userId: nat,
    productId: nat,
    orderItemId: Option<nat>,
    rating: int,
    content: string,
    images: seq<string>,
    isAnonymous: bool,
    visible: bool,
    replyContent: Option<string>,
    replyTime: Option<int>)

  /**
   * Existing users and products; each order item's buyer (None when the
   * item's order or its buyer is null); the comments by id; the next id.
   */
  datatype CommentState = CommentState(
    users: set<nat>,
    products: set<nat>,
    orderItems: map<nat, Option<nat>>,
    comments: map<nat, Comment>,
    nextId: nat)

  // ---------------------------------------------------------------------
  // The image-list codec

  /** createComment's encoding: a null or empty list is stored as null. */
  function EncodeImagesOnCreate(images: Option<seq<string>>): (r: Option<string>)
    ensures r.None? <==> images.None? || images.value == []
  {
    if images.None? || images.value == [] then None else Some(Join(images.value, ImageSeparator))
  }

  /** updateComment's encoding: only a null list is stored as null; [] becomes "". */
  function EncodeImagesOnUpdate(images: Option<seq<string>>): (r: Option<string>)
    ensures r.None? <==> images.None?
    ensures images == Some([]) ==> r == Some("")
  {
    if images.None? then None else Some(Join(images.value, ImageSeparator))
  }

  /** convertEntityToDto's decoding: a column without text reads as the empty list. */
  function DecodeImages(column: Option<string>): (r: seq<string>)
    ensures !HasTextOpt(column) ==> r == []
    ensures HasTextOpt(column) && ImageSeparator !in column.value ==> r == [column.value]
  {
    if HasTextOpt(column) then Split(column.value, ImageSeparator) else []
  }

  /** A list the codec carries unchanged: non-empty pieces without ';', at least one with text. */
  predicate Encodable(xs: seq<string>) {
    |xs| >= 1
    && (forall k :: 0 <= k < |xs| ==> xs[k] != "" && ImageSeparator !in xs[k])
    && exists k :: 0 <= k < |xs| && HasText(xs[k])
  }

  /** A piece with text gives the joined string text. */
  lemma {:induction false} JoinHasText(xs: seq<string>, sep: char, k: nat)
    requires k < |xs| && HasText(xs[k])
    ensures HasText(Join(xs, sep))
  {
    if |xs| > 1 {
      var j := Join(xs, sep);
      assert j == xs[0] + [sep] + Join(xs[1..], sep);
      if k == 0 {
        var i :| 0 <= i < |xs[0]| && !IsWhitespace(xs[0][i]);
        assert j[i] == xs[0][i];
      } else {
        JoinHasText(xs[1..], sep, k - 1);
        var rest := Join(xs[1..], sep);
        var i :| 0 <= i < |rest| && !IsWhitespace(rest[i]);
        assert j[|xs[0]| + 1 + i] == rest[i];
      }
    }
  }

  /** Reading back what createComment or updateComment stored gives the list that was sent. */
  lemma ImageCodecRoundTrip(xs: seq<string>)
    requires Encodable(xs)
    ensures DecodeImages(EncodeImagesOnCreate(Some(xs))) == xs
    ensures DecodeImages(EncodeImagesOnUpdate(Some(xs))) == xs
  {
    var k :| 0 <= k < |xs| && HasText(xs[k]);
    JoinHasText(xs, ImageSeparator, k);
    SplitJoin(xs, ImageSeparator);
  }

  /** The text condition is needed: a list of one blank name reads back as empty. */
  lemma BlankImageNameIsLost()
    ensures DecodeImages(EncodeImagesOnCreate(Some([" "]))) == []
  {
    assert Join([" "], ImageSeparator) == " ";
    assert IsBlank(" ");
  }

  // ---------------------------------------------------------------------
  // CommentServiceImpl

  function ToView(c: Comment): (v: CommentView)
    ensures v.id == c.id && v.userId == c.userId && v.images == DecodeImages(c.images)
  {
    CommentView(c.id, c.userId, c.productId, c.orderItemId, c.rating, c.content, DecodeImages(c.images),
                c.isAnonymous, c.visible, c.replyContent, c.replyTime)
  }

  /** No order item carries two comments. */
  predicate OneCommentPerItem(st: CommentState) {
    forall a, b :: (a in st.comments && b in st.comments && st.comments[a].orderItemId.Some?
                    && st.comments[a].orderItemId == st.comments[b].orderItemId) ==> a == b
  }

  /** existsByOrderItem_Id. */
  predicate ItemCommented(st: CommentState, orderItemId: nat) {
    exists id :: id in st.comments && st.comments[id].orderItemId == Some(orderItemId)
  }

  /**
   * The order-item checks of createComment: the item must exist, be the
   * caller's, and not be commented yet.
   */
  function CheckOrderItem(st: CommentState, userId: nat, orderItemId: nat): (r: Result<(), Failure>)
    ensures r.Ok? <==> (orderItemId in st.orderItems && st.orderItems[orderItemId] == Some(userId)
                        && !ItemCommented(st, orderItemId))
    ensures orderItemId !in st.orderItems ==> r == Err(EntityNotFound)
    ensures orderItemId in st.orderItems && st.orderItems[orderItemId].Some? && st.orderItems[orderItemId] != Some(userId)
      ==> r == Err(AccessDenied)
  {
    if orderItemId !in st.orderItems then Err(EntityNotFound)
    else match st.orderItems[orderItemId]
      case None => Err(NullPointer)
      case Some(buyer) =>
        if buyer != userId then Err(AccessDenied)
        else if ItemCommented(st, orderItemId) then Err(IllegalState)
        else Ok(())
  }

  /**
   * createComment: user and product must exist, an order item must be the
   * caller's and still uncommented; visible defaults to true, isAnonymous
   * to false, and a null rating or content fails the NOT NULL columns.
   */
  function CreateComment(st: CommentState, userId: nat, dto: CommentDto): (r: Result<(CommentState, CommentView), Failure>)
    ensures userId !in st.users ==> r == Err(EntityNotFound)
    ensures userId in st.users && dto.productId.Some? && dto.productId.value !in st.products ==> r == Err(EntityNotFound)
    ensures userId in st.users && dto.productId.None? ==> r == Err(IllegalArgument)
    ensures userId in st.users && dto.productId.Some? && dto.productId.value in st.products
            && dto.orderItemId.Some? && CheckOrderItem(st, userId, dto.orderItemId.value).Err?
            ==> r == Err(CheckOrderItem(st, userId, dto.orderItemId.value).error)
    ensures userId in st.users && dto.productId.Some? && dto.productId.value in st.products
            && (dto.orderItemId.Some? ==> CheckOrderItem(st, userId, dto.orderItemId.value).Ok?)
            && (dto.rating.None? || dto.content.None?)
            ==> r == Err(ConstraintViolation)
    ensures r.Ok? <==> (userId in st.users && dto.productId.Some? && dto.productId.value in st.products
                        && dto.rating.Some? && dto.content.Some?
                        && (dto.orderItemId.Some? ==> CheckOrderItem(st, userId, dto.orderItemId.value).Ok?))
    ensures r.Ok? ==> var (st2, v) := r.value;
      st.nextId in st2.comments && st2.comments == st.comments[st.nextId := st2.comments[st.nextId]]
      && st2.nextId == st.nextId + 1 && v == ToView(st2.comments[st.nextId])
      && v.userId == userId && v.productId == dto.productId.value && v.orderItemId == dto.orderItemId
      && v.rating == dto.rating.value && v.content == dto.content.value
      && v.visible == dto.visible.GetOr(true) && v.isAnonymous == dto.isAnonymous.GetOr(false)
      && v.replyContent.None? && v.replyTime.None?
  {
    if userId !in st.users then Err(EntityNotFound)
    else if dto.productId.None? then Err(IllegalArgument)
    else if dto.productId.value !in st.products then Err(EntityNotFound)
    else
      var _ :- if dto.orderItemId.Some? then CheckOrderItem(st, userId, dto.orderItemId.value) else Ok(());
      if dto.rating.None? || dto.content.None? then Err(ConstraintViolation)
      else
        var c := Comment(st.nextId, userId, dto.productId.value, dto.orderItemId, dto.rating.value, dto.content.value,
                         EncodeImagesOnCreate(dto.images), dto.isAnonymous.GetOr(false), dto.visible.GetOr(true), None, None);
        Ok((st.(comments := st.comments[st.nextId := c], nextId := st.nextId + 1), ToView(c)))
  }

  /** Ids are below the counter, so a new comment never overwrites an old one. */
  predicate IdsBelowNext(st: CommentState) {
    forall id :: id in st.comments ==> id < st.nextId
  }

  /**
   * createComment keeps at most one comment per order item, and the images
   * sent come back when the list is encodable.
   */
  lemma CreateCommentKeepsOnePerItem(st: CommentState, userId: nat, dto: CommentDto)
    requires OneCommentPerItem(st) && IdsBelowNext(st)
    ensures var r := CreateComment(st, userId, dto);
      r.Ok? ==> (OneCommentPerItem(r.value.0) && IdsBelowNext(r.value.0)
                 && (dto.images.Some? && Encodable(dto.images.value) ==> r.value.1.images == dto.images.value)
                 && (dto.orderItemId.Some? ==> ItemCommented(r.value.0, dto.orderItemId.value)))
  {
    var r := CreateComment(st, userId, dto);
    if r.Ok? {
      var st2 := r.value.0;
      if dto.orderItemId.Some? {
        assert !ItemCommented(st, dto.orderItemId.value);
        assert st2.comments[st.nextId].orderItemId == dto.orderItemId;
      }
      if dto.images.Some? && Encodable(dto.images.value) {
        ImageCodecRoundTrip(dto.images.value);
      }
    }
  }

  /** A second comment on the same order item is refused. */
  lemma SecondCommentOnItemFails(st: CommentState, userId: nat, dto: CommentDto, dto2: CommentDto)
    requires CreateComment(st, userId, dto).Ok? && dto.orderItemId.Some?
    requires dto2.orderItemId == dto.orderItemId && dto2.productId.Some? && dto2.productId.value in st.products
    ensures CreateComment(CreateComment(st, userId, dto).value.0, userId, dto2) == Err(IllegalState)
  {
    var st2 := CreateComment(st, userId, dto).value.0;
    assert st2.comments[st.nextId].orderItemId == dto.orderItemId;
    assert ItemCommented(st2, dto.orderItemId.value);
  }

  /** The author check shared by update and delete. */
  function OwnComment(st: CommentState, userId: nat, commentId: nat): (r: Result<Comment, Failure>)
    ensures r.Ok? <==> commentId in st.comments && st.comments[commentId].userId == userId
    ensures r.Ok? ==> r.value == st.comments[commentId]
    ensures commentId !in st.comments ==> r == Err(EntityNotFound)
    ensures commentId in st.comments && st.comments[commentId].userId != userId ==> r == Err(AccessDenied)
  {
    if commentId !in st.comments then Err(EntityNotFound)
    else if st.comments[commentId].userId != userId then Err(AccessDenied)
    else Ok(st.comments[commentId])
  }

  /**
   * updateComment: only the author may edit. Rating and content are
   * overwritten, images re-encoded (null stays null), isAnonymous and
   * visible change only when given.
   */
  function UpdateComment(st: CommentState, userId: nat, commentId: nat, dto: CommentDto): (r: Result<(CommentState, CommentView), Failure>)
    ensures OwnComment(st, userId, commentId).Err? ==> r == Err(OwnComment(st, userId, commentId).error)
    ensures OwnComment(st, userId, commentId).Ok? ==> (r.Err? <==> dto.rating.None? || dto.content.None?)
    ensures r.Ok? ==> var (st2, v) := r.value;
      var old_ := st.comments[commentId];
      commentId in st2.comments && st2.comments == st.comments[commentId := st2.comments[commentId]]
      && st2.nextId == st.nextId && v == ToView(st2.comments[commentId])
      && st2.comments[commentId] == old_.(rating := dto.rating.value, content := dto.content.value,
           images := EncodeImagesOnUpdate(dto.images),
           isAnonymous := dto.isAnonymous.GetOr(old_.isAnonymous), visible := dto.visible.GetOr(old_.visible))
  {
    var c :- OwnComment(st, userId, commentId);
    if dto.rating.None? || dto.content.None? then Err(ConstraintViolation)
    else
      var c2 := c.(rating := dto.rating.value, content := dto.content.value, images := EncodeImagesOnUpdate(dto.images),
                   isAnonymous := if dto.isAnonymous.Some? then dto.isAnonymous.value else c.isAnonymous,
                   visible := if dto.visible.Some? then dto.visible.value else c.visible);
      Ok((st.(comments := st.comments[commentId := c2]), ToView(c2)))
  }

  /** An update keeps the author, the product, the order item and the reply. */
  lemma UpdateCommentKeepsLinks(st: CommentState, userId: nat, commentId: nat, dto: CommentDto)
    requires OneCommentPerItem(st)
    ensures var r := UpdateComment(st, userId, commentId, dto);
      r.Ok? ==> (OneCommentPerItem(r.value.0)
                 && r.value.1.userId == userId
                 && r.value.0.comments[commentId].productId == st.comments[commentId].productId
                 && r.value.0.comments[commentId].orderItemId == st.comments[commentId].orderItemId
                 && r.value.0.comments[commentId].replyContent == st.comments[commentId].replyContent)
  {
  }

  /** deleteComment: only the author may delete. */
  function DeleteComment(st: CommentState, userId: nat, commentId: nat): (r: Result<CommentState, Failure>)
    ensures r.Err? <==> OwnComment(st, userId, commentId).Err?
    ensures r.Err? ==> r.error == OwnComment(st, userId, commentId).error
    ensures r.Ok? ==> r.value.comments == st.comments - {commentId} && r.value.nextId == st.nextId
  {
    var _ :- OwnComment(st, userId, commentId);
    Ok(st.(comments := st.comments - {commentId}))
  }

  /** Deleting the comment on an order item frees the item for a new comment. */
  lemma DeleteFreesOrderItem(st: CommentState, userId: nat, commentId: nat)
    requires OneCommentPerItem(st)
    requires DeleteComment(st, userId, commentId).Ok? && st.comments[commentId].orderItemId.Some?
    ensures !ItemCommented(DeleteComment(st, userId, commentId).value, st.comments[commentId].orderItemId.value)
  {
  }

  /**
   * replyToComment: the replying user and the comment must exist; nothing
   * ties the replier to the product's seller.
   */
  function ReplyToComment(st: CommentState, sellerId: nat, commentId: nat, replyContent: Option<string>, now: int)
    : (r: Result<(CommentState, CommentView), Failure>)
    ensures r.Err? <==> sellerId !in st.users || commentId !in st.comments
    ensures r.Err? ==> r.error == EntityNotFound
    ensures r.Ok? ==> var (st2, v) := r.value;
      commentId in st2.comments
      && st2.comments == st.comments[commentId := st.comments[commentId].(replyContent := replyContent, replyTime := Some(now))]
      && v == ToView(st2.comments[commentId])
  {
    if sellerId !in st.users || commentId !in st.comments then Err(EntityNotFound)
    else
      var c := st.comments[commentId].(replyContent := replyContent, replyTime := Some(now));
      Ok((st.(comments := st.comments[commentId := c]), ToView(c)))
  }

  /** A reply keeps one comment per order item and changes nothing but the reply. */
  lemma ReplyKeepsOnePerItem(st: CommentState, sellerId: nat, commentId: nat, replyContent: Option<string>, now: int)
    requires OneCommentPerItem(st)
    ensures var r := ReplyToComment(st, sellerId, commentId, replyContent, now);
      r.Ok? ==> (OneCommentPerItem(r.value.0)
                 && r.value.0.comments.Keys == st.comments.Keys
                 && r.value.0.comments[commentId].(replyContent := None, replyTime := None)
                    == st.comments[commentId].(replyContent := None, replyTime := None))
  {
  }

  /** Any existing user may reply to any comment, including their own. */
  lemma AnyUserCanReply(st: CommentState, userId: nat, commentId: nat, text: string, now: int)
    requires userId in st.users && commentId in st.comments
    ensures ReplyToComment(st, userId, commentId, Some(text), now).Ok?
  {
  }

  function GetCommentById(st: CommentState, commentId: nat): (r: Result<CommentView, Failure>)
    ensures r.Err? <==> commentId !in st.comments
    ensures r.Ok? ==> r.value == ToView(st.comments[commentId])
  {
    if commentId !in st.comments then Err(EntityNotFound) else Ok(ToView(st.comments[commentId]))
  }

  /** getProductComments without the paging: the product must exist; hidden comments are not listed. */
  function GetProductComments(st: CommentState, productId: nat): (r: Result<set<CommentView>, Failure>)
    ensures r.Err? <==> productId !in st.products
    ensures r.Ok? ==> forall id :: (id in st.comments && st.comments[id].productId == productId && st.comments[id].visible)
                                   ==> ToView(st.comments[id]) in r.value
    ensures r.Ok? ==> forall v :: v in r.value ==> v.visible && v.productId == productId
    ensures r.Ok? ==> forall v :: v in r.value ==>
      exists id :: id in st.comments && v == ToView(st.comments[id])
                   && st.comments[id].productId == productId && st.comments[id].visible
  {
    if productId !in st.products then Err(EntityNotFound)
    else Ok(set id | id in st.comments && st.comments[id].productId == productId && st.comments[id].visible
      :: ToView(st.comments[id]))
  }

  /** getUserComments without the paging: the user must exist; hidden comments are not listed. */
  function GetUserComments(st: CommentState, userId: nat): (r: Result<set<CommentView>, Failure>)
    ensures r.Err? <==> userId !in st.users
    ensures r.Ok? ==> forall id :: (id in st.comments && st.comments[id].userId == userId && st.comments[id].visible)
                                   ==> ToView(st.comments[id]) in r.value
    ensures r.Ok? ==> forall v :: v in r.value ==> v.visible && v.userId == userId
    ensures r.Ok? ==> forall v :: v in r.value ==>
      exists id :: id in st.comments && v == ToView(st.comments[id])
                   && st.comments[id].userId == userId && st.comments[id].visible
  {
    if userId !in st.users then Err(EntityNotFound)
    else Ok(set id | id in st.comments && st.comments[id].userId == userId && st.comments[id].visible
      :: ToView(st.comments[id]))
  }

  /** A new comment left visible is listed both under its product and under its author. */
  lemma CreatedCommentIsListed(st: CommentState, userId: nat, dto: CommentDto)
    requires CreateComment(st, userId, dto).Ok? && dto.visible != Some(false)
    ensures var (st2, v) := CreateComment(st, userId, dto).value;
      v in GetProductComments(st2, dto.productId.value).value && v in GetUserComments(st2, userId).value
  {
  }

  /** hasUserCommentedOnOrderItem: only the item's buyer may ask. */
  function HasUserCommentedOnOrderItem(st: CommentState, userId: nat, orderItemId: nat): (r: Result<bool, Failure>)
    ensures orderItemId !in st.orderItems ==> r == Err(EntityNotFound)
    ensures r.Ok? <==> orderItemId in st.orderItems && st.orderItems[orderItemId] == Some(userId)
    ensures r.Ok? ==> (r.value <==> ItemCommented(st, orderItemId))
  {
    if orderItemId !in st.orderItems then Err(EntityNotFound)
    else match st.orderItems[orderItemId]
      case None => Err(NullPointer)
      case Some(buyer) => if buyer != userId then Err(AccessDenied) else Ok(ItemCommented(st, orderItemId))
  }

  /** After commenting on an order item the buyer is told they have. */
  lemma CreateThenHasCommented(st: CommentState, userId: nat, dto: CommentDto)
    requires CreateComment(st, userId, dto).Ok? && dto.orderItemId.Some?
    ensures HasUserCommentedOnOrderItem(CreateComment(st, userId, dto).value.0, userId, dto.orderItemId.value) == Ok(true)
  {
    var st2 := CreateComment(st, userId, dto).value.0;
    assert st2.comments[st.nextId].orderItemId == dto.orderItemId;
  }
}
