/** `VimeoUser`: a user read once from a JSON object and never changed afterwards. */
module Users {
  import opened Wrappers
  import opened Text
  import opened Int64
  import opened UriIds

  /** `VimeoPicture`, read by a parser that is not part of this model. */
  type Picture(==)
  /** `VimeoUserWebsite`, read by a parser that is not part of this model. */
  type Website(==)
  /** `EssentialsDateTime`, read by a parser that is not part of this model. */
  type Timestamp(==)

  /** `VimeoUserAccountType`. */
  datatype AccountType = Basic | Business | Plus | Pro

  /** The values the constructor reads from its JSON object, as the JSON helpers hand them over. */
  datatype UserJson = UserJson(
    uri: Option<string>,
    name: Option<string>,
    link: Option<string>,
    location: Option<string>,
    bio: Option<string>,
    createdTime: Option<Timestamp>,
    account: AccountType,
    pictures: Option<Picture>,
    websites: seq<Website>,
    resourceKey: Option<string>)

  datatype User = User(
    id: int64,
    uri: string,
    name: Option<string>,
    link: Option<string>,
    location: Option<string>,
    bio: Option<string>,
    createdTime: Option<Timestamp>,
    account: AccountType,
    picture: Option<Picture>,
    websites: seq<Website>,
    resourceKey: Option<string>)
  {
    /** A location is present when it holds a character other than white space. */
    function HasLocation(): (r: bool)
      ensures r <==> location.Some? && exists k :: 0 <= k < |location.value| && !IsWhiteSpace(location.value[k])
      ensures r ==> location.Some? && location.value != ""
    {
      !IsNullOrWhiteSpace(location)
    }

    /** A bio is present when it holds a character other than white space. */
    function HasBio(): (r: bool)
      ensures r <==> bio.Some? && exists k :: 0 <= k < |bio.value| && !IsWhiteSpace(bio.value[k])
      ensures r ==> bio.Some? && bio.value != ""
    {
      !IsNullOrWhiteSpace(bio)
    }

    /** As written, this looks at the bio rather than at the picture. */
    function HasPicture(): (r: bool)
      ensures r <==> bio.Some? && exists k :: 0 <= k < |bio.value| && !IsWhiteSpace(bio.value[k])
    {
      !IsNullOrWhiteSpace(bio)
    }

    /** What `HasPicture` is documented to report: whether a default picture was read. */
    function HasPictureIntended(): (r: bool)
      ensures r <==> picture != None
    {
      picture.Some?
    }

    /** Websites are present when at least one was read. */
    function HasWebsites(): (r: bool)
      ensures !r <==> websites == []
    {
      |websites| > 0
    }
  }

  /**
   * The private constructor: the ID is derived from `uri` before anything else is read, so
   * a bad URI fails the whole construction; otherwise every other value is kept as read.
   */
  function NewUser(obj: UserJson): (r: Result<User, ParseError>)
    ensures obj.uri.None? ==> r == Failure(NullReference)
    ensures r.Failure? <==> IdFromUri(obj.uri).Failure?
    ensures r.Failure? ==> r.error == IdFromUri(obj.uri).error
    ensures r.Success? ==> obj.uri == Some(r.value.uri) && IdFromUri(obj.uri) == Success(r.value.id)
    ensures r.Success? ==>
      var u := r.value;
      u.name == obj.name && u.link == obj.link && u.location == obj.location && u.bio == obj.bio
      && u.createdTime == obj.createdTime && u.account == obj.account && u.picture == obj.pictures
      && u.websites == obj.websites && u.resourceKey == obj.resourceKey
  {
    match IdFromUri(obj.uri)
    case Failure(e) => Failure(e)
    case Success(id) =>
      Success(User(id, obj.uri.value, obj.name, obj.link, obj.location, obj.bio, obj.createdTime,
                   obj.account, obj.pictures, obj.websites, obj.resourceKey))
  }

  /** `VimeoUser.Parse`: null gives null; any other object goes to the constructor. */
  function ParseUser(obj: Option<UserJson>): (r: Result<Option<User>, ParseError>)
    ensures obj.None? <==> r == Success(None)
    ensures obj.Some? && r.Success? ==> r.value.Some? && NewUser(obj.value) == Success(r.value.value)
    ensures obj.Some? && r.Failure? ==> NewUser(obj.value) == Failure(r.error)
  {
    match obj
    case None => Success(None)
    case Some(o) =>
      match NewUser(o)
      case Success(u) => Success(Some(u))
      case Failure(e) => Failure(e)
  }

  /** A user whose URI ends in `/` followed by the decimal form of `n` gets the ID `n`. */
  lemma UserIdRoundTrip(obj: UserJson, prefix: string, n: int64)
    requires obj.uri == Some(prefix + "/" + Format(n))
    ensures NewUser(obj).Success? && NewUser(obj).value.id == n
  {
    IdRoundTrip(prefix, n);
  }

  /**
   * The URI's last segment decides: when it does not parse, the constructor fails with the
   * parser's error (an empty segment after a trailing slash, a non-numeric text, a value out
   * of range) instead of producing a user with a default ID.
   */
  lemma UserRejectsBadSegment(obj: UserJson, prefix: string, segment: string)
    requires obj.uri == Some(prefix + "/" + segment) && '/' !in segment
    ensures Int64.Parse(segment).Failure? ==> NewUser(obj) == Failure(Int64.Parse(segment).error)
    ensures segment == "" ==> NewUser(obj) == Failure(FormatError)
  {
    LastSegmentAfterSlash(prefix, segment);
    if segment == "" {
      ParseBlank(segment);
    }
  }

  /** A user read from an object without location, bio, pictures or websites reports none of them. */
  lemma MissingFieldsReportAbsent(obj: UserJson)
    requires obj.location.None? && obj.bio.None? && obj.pictures.None? && obj.websites == []
    requires NewUser(obj).Success?
    ensures var u := NewUser(obj).value;
      !u.HasLocation() && !u.HasBio() && !u.HasPicture() && !u.HasPictureIntended() && !u.HasWebsites()
  {
  }

  /**
   * White space alone, or an empty text, does not count as a location or a bio; one
   * character other than white space anywhere in it does.
   */
  lemma PresenceOfText(u: User, text: string, i: nat)
    requires i < |text|
    ensures (forall k :: 0 <= k < |text| ==> IsWhiteSpace(text[k])) ==>
      !u.(location := Some(text)).HasLocation() && !u.(bio := Some(text)).HasBio()
    ensures !IsWhiteSpace(text[i]) ==> u.(location := Some(text)).HasLocation() && u.(bio := Some(text)).HasBio()
    ensures !u.(location := Some("")).HasLocation() && !u.(bio := Some("")).HasBio()
  {
  }

  /** As written, `HasPicture` is `HasBio`, whatever the picture is. */
  lemma HasPictureIsHasBio(u: User)
    ensures u.HasPicture() == u.HasBio()
  {
  }

  /**
   * The discrepancy, exhibited: a user with a picture and no bio reports no picture, and a
   * user with a bio and no picture reports one.
   */
  lemma HasPictureIgnoresPicture(u: User, p: Picture)
    ensures !u.(picture := Some(p), bio := None).HasPicture()
    ensures u.(picture := None, bio := Some("bio")).HasPicture()
  {
    assert !IsWhiteSpace("bio"[0]);
  }

  /** The intended flag follows the picture alone and ignores the bio. */
  lemma HasPictureIntendedFollowsPicture(u: User, bio: Option<string>)
    ensures u.(bio := bio).HasPictureIntended() == u.HasPictureIntended()
    ensures u.HasPictureIntended() <==> u.picture != None
  {
  }
}
