/**
 * The store-once persistence of `UserAvatar`: an optional avatar record with
 * three optional byte slots, filled at most once each, and a save that is
 * raised only when something was marked dirty.
 */
module UserAvatar {
  import opened Options
  import opened Bitmap
  import opened NaviImage

  /** The `Avatar` entity. */
  datatype AvatarRecord = AvatarRecord(
    avatarURLString: string,
    originalAvatarData: Option<Bytes>,
    miniSquareAvatarData: Option<Bytes>,
    miniRoundAvatarData: Option<Bytes>)

  /** The part of a `User` the avatar code touches: whether it has a managed-object context, and its avatar. */
  datatype User = User(hasContext: bool, avatar: Option<AvatarRecord>)

  /**
   * The app's two stored styles, `squareAvatarStyle` (a plain rectangle) and
   * `roundAvatarStyle` (a rounded rectangle).
   */
  datatype StyleConstants = StyleConstants(square: AvatarStyle, round: AvatarStyle)

  predicate ValidConstants(k: StyleConstants) {
    k.square.Rectangle? && k.round.RoundedRectangle?
  }

  /** The state after `saveOriginalImage`, and whether `trySave` was called. */
  datatype SaveResult = SaveResult(user: User, saved: bool)

  function SquareSlot(user: User): Option<Bytes> {
    match user.avatar
    case None => None
    case Some(a) => a.miniSquareAvatarData
  }

  function RoundSlot(user: User): Option<Bytes> {
    match user.avatar
    case None => None
    case Some(a) => a.miniRoundAvatarData
  }

  /** The slot `saveOriginalImage` writes for `style`: the square one for rectangles. */
  function StyleSlot(user: User, style: AvatarStyle): Option<Bytes> {
    match style
    case Rectangle(_) => SquareSlot(user)
    case RoundedRectangle(_, _, _) => RoundSlot(user)
  }

  /** `localOriginalImage`: the stored original, if there is a record holding one. */
  function LocalOriginalImage(user: User): (r: Option<Bytes>)
    ensures r.Some? <==> user.avatar.Some? && user.avatar.value.originalAvatarData.Some?
    ensures r.Some? ==> r == user.avatar.value.originalAvatarData
  {
    match user.avatar
    case None => None
    case Some(a) => a.originalAvatarData
  }

  /**
   * `localStyledImage`: the square slot for the square style, the round slot
   * for the round style, nothing for any other style.
   */
  function LocalStyledImage(user: User, style: AvatarStyle, k: StyleConstants): (r: Option<Bytes>)
    requires ValidConstants(k)
    ensures style == k.square ==> r == SquareSlot(user)
    ensures style == k.round ==> r == RoundSlot(user)
    ensures style != k.square && style != k.round ==> r.None?
  {
    if style == k.square then SquareSlot(user)
    else if style == k.round then RoundSlot(user)
    else None
  }

  /**
   * `saveOriginalImage`. `url` is the avatar URL's absolute string, `jpeg`
   * and `png` are the encodings of the original and of the styled image
   * (`None` when encoding fails).
   */
  function SaveOriginalImage(user: User, style: AvatarStyle, url: string,
                             jpeg: Option<Bytes>, png: Option<Bytes>): (r: SaveResult)
    ensures !user.hasContext ==> r == SaveResult(user, false)
    ensures r.user.hasContext == user.hasContext
    ensures user.hasContext ==> r.user.avatar.Some?
    ensures user.hasContext && user.avatar.None? ==>
      r.user.avatar.value.avatarURLString == url && r.user.avatar.value.originalAvatarData == jpeg
    ensures user.avatar.Some? ==>
      && r.user.avatar.value.avatarURLString == user.avatar.value.avatarURLString
      && r.user.avatar.value.originalAvatarData == user.avatar.value.originalAvatarData
    ensures StyleSlot(user, style).Some? ==> StyleSlot(r.user, style) == StyleSlot(user, style)
    ensures user.hasContext && StyleSlot(user, style).None? ==> StyleSlot(r.user, style) == png
    ensures style.Rectangle? ==> RoundSlot(r.user) == RoundSlot(user)
    ensures style.RoundedRectangle? ==> SquareSlot(r.user) == SquareSlot(user)
    ensures r.saved <==> user.hasContext && (user.avatar.None? || StyleSlot(user, style).None?)
  {
    if !user.hasContext then SaveResult(user, false)
    else
      var created := user.avatar.None?;
      var avatar := match user.avatar
        case None => AvatarRecord(url, jpeg, None, None)
        case Some(a) => a;
      var (filled, dirty) := match style
        case Rectangle(_) =>
          if avatar.miniSquareAvatarData.None? then (avatar.(miniSquareAvatarData := png), true)
          else (avatar, created)
        case RoundedRectangle(_, _, _) =>
          if avatar.miniRoundAvatarData.None? then (avatar.(miniRoundAvatarData := png), true)
          else (avatar, created);
      SaveResult(User(true, Some(filled)), dirty)
  }

  /**
   * Repeating a save whose encoding succeeded changes nothing and saves
   * nothing.
   */
  lemma SaveIsIdempotent(user: User, style: AvatarStyle, url: string,
                         jpeg: Option<Bytes>, png: Option<Bytes>)
    requires png.Some? || StyleSlot(user, style).Some?
    ensures var once := SaveOriginalImage(user, style, url, jpeg, png);
      SaveOriginalImage(once.user, style, url, jpeg, png) == SaveResult(once.user, false)
  {
    var once := SaveOriginalImage(user, style, url, jpeg, png);
    if user.hasContext {
      assert StyleSlot(once.user, style).Some?;
      assert once.user.avatar.Some?;
    }
  }

  /**
   * When the styled image cannot be encoded, the slot stays empty and every
   * repetition marks the record dirty and saves again.
   */
  lemma FailedEncodingSavesAgain(user: User, style: AvatarStyle, url: string, jpeg: Option<Bytes>)
    requires user.hasContext && StyleSlot(user, style).None?
    ensures var once := SaveOriginalImage(user, style, url, jpeg, None);
      && once.saved && StyleSlot(once.user, style).None?
      && SaveOriginalImage(once.user, style, url, jpeg, None) == SaveResult(once.user, true)
  {
    var once := SaveOriginalImage(user, style, url, jpeg, None);
    assert once.user.avatar.Some?;
  }

  /**
   * Saving under one of the two app styles and looking up that style gives
   * back the stored bytes: the freshly encoded ones if the slot was empty,
   * the earlier ones otherwise.
   */
  lemma SaveThenLookup(user: User, style: AvatarStyle, k: StyleConstants, url: string,
                       jpeg: Option<Bytes>, png: Option<Bytes>)
    requires ValidConstants(k) && user.hasContext
    requires style == k.square || style == k.round
    ensures var after := SaveOriginalImage(user, style, url, jpeg, png).user;
      LocalStyledImage(after, style, k) == (if StyleSlot(user, style).Some? then StyleSlot(user, style) else png)
  {
  }

  /**
   * A style that is neither app style still fills a slot on save, but the
   * lookup never returns it.
   */
  lemma OtherStyleNeverLooksUp(user: User, style: AvatarStyle, k: StyleConstants, url: string,
                               jpeg: Option<Bytes>, png: Option<Bytes>)
    requires ValidConstants(k) && user.hasContext && StyleSlot(user, style).None? && png.Some?
    requires style != k.square && style != k.round
    ensures var after := SaveOriginalImage(user, style, url, jpeg, png).user;
      StyleSlot(after, style) == png && LocalStyledImage(after, style, k).None?
  {
  }

  /** Saving never changes the original the record already holds. */
  lemma SaveKeepsOriginal(user: User, style: AvatarStyle, url: string,
                          jpeg: Option<Bytes>, png: Option<Bytes>)
    requires user.avatar.Some?
    ensures LocalOriginalImage(SaveOriginalImage(user, style, url, jpeg, png).user) == LocalOriginalImage(user)
  {
  }
}
