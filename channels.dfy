/** `VimeoChannel`: a channel read once from a JSON object and never changed afterwards. */
module Channels {
  import opened Wrappers
  import opened Text
  import opened Int64
  import opened UriIds
  import opened Users

  /** `VimeoChannelPrivacy`, read by a parser that is not part of this model. */
  type Privacy(==)

  /**
   * The values the constructor reads from its JSON object. The owner is still the raw
   * object (null when absent): the constructor itself hands it to `VimeoUser.Parse`.
   */
  datatype ChannelJson = ChannelJson(
    uri: Option<string>,
    name: Option<string>,
    description: Option<string>,
    link: Option<string>,
    createdTime: Option<Timestamp>,
    modifiedTime: Option<Timestamp>,
    user: Option<UserJson>,
    pictures: Option<Picture>,
    header: Option<Picture>,
    privacy: Option<Privacy>,
    resourceKey: Option<string>)

  datatype Channel = Channel(
    id: int64,
    uri: string,
    name: Option<string>,
    description: Option<string>,
    link: Option<string>,
    createdTime: Option<Timestamp>,
    modifiedTime: Option<Timestamp>,
    user: Option<User>,
    picture: Option<Picture>,
    header: Option<Picture>,
    privacy: Option<Privacy>,
    resourceKey: Option<string>)
  {
    /** A description is present when it holds a character other than white space. */
    function HasDescription(): (r: bool)
      ensures r <==> description.Some? && exists k :: 0 <= k < |description.value| && !IsWhiteSpace(description.value[k])
      ensures r ==> description.Some? && description.value != ""
    {
      !IsNullOrWhiteSpace(description)
    }

    /** Whether a default picture was read. */
    function HasPicture(): (r: bool)
      ensures r <==> picture != None
    {
      picture.Some?
    }

    /** Whether a header picture was read. */
    function HasHeader(): (r: bool)
      ensures r <==> header != None
    {
      header.Some?
    }
  }

  /**
   * The private constructor: the ID is derived from `uri` first; then the owner is parsed,
   * and a failure there fails the channel too. Every other value is kept as read.
   */
  function NewChannel(obj: ChannelJson): (r: Result<Channel, ParseError>)
    ensures obj.uri.None? ==> r == Failure(NullReference)
    ensures IdFromUri(obj.uri).Failure? ==> r == Failure(IdFromUri(obj.uri).error)
    ensures IdFromUri(obj.uri).Success? ==> (r.Success? <==> ParseUser(obj.user).Success?)
    ensures IdFromUri(obj.uri).Success? && ParseUser(obj.user).Failure? ==> r == Failure(ParseUser(obj.user).error)
    ensures r.Success? ==>
      obj.uri == Some(r.value.uri) && IdFromUri(obj.uri) == Success(r.value.id)
      && ParseUser(obj.user) == Success(r.value.user)
    ensures r.Success? ==>
      var c := r.value;
      c.name == obj.name && c.description == obj.description && c.link == obj.link
      && c.createdTime == obj.createdTime && c.modifiedTime == obj.modifiedTime
      && c.picture == obj.pictures && c.header == obj.header && c.privacy == obj.privacy
      && c.resourceKey == obj.resourceKey
  {
    match IdFromUri(obj.uri)
    case Failure(e) => Failure(e)
    case Success(id) =>
      match ParseUser(obj.user)
      case Failure(e) => Failure(e)
      case Success(owner) =>
        Success(Channel(id, obj.uri.value, obj.name, obj.description, obj.link, obj.createdTime,
                        obj.modifiedTime, owner, obj.pictures, obj.header, obj.privacy, obj.resourceKey))
  }

  /** `VimeoChannel.Parse`: null gives null; any other object goes to the constructor. */
  function ParseChannel(obj: Option<ChannelJson>): (r: Result<Option<Channel>, ParseError>)
    ensures obj.None? <==> r == Success(None)
    ensures obj.Some? && r.Success? ==> r.value.Some? && NewChannel(obj.value) == Success(r.value.value)
    ensures obj.Some? && r.Failure? ==> NewChannel(obj.value) == Failure(r.error)
  {
    match obj
    case None => Success(None)
    case Some(o) =>
      match NewChannel(o)
      case Success(c) => Success(Some(c))
      case Failure(e) => Failure(e)
  }

  /**
   * A channel whose URI ends in `/` followed by the decimal form of `n`, and whose owner is
   * absent or has a URI of the same shape, gets the ID `n`.
   */
  lemma ChannelIdRoundTrip(obj: ChannelJson, prefix: string, n: int64)
    requires obj.uri == Some(prefix + "/" + Format(n))
    requires ParseUser(obj.user).Success?
    ensures NewChannel(obj).Success? && NewChannel(obj).value.id == n
  {
    IdRoundTrip(prefix, n);
  }

  /**
   * When the URI's last segment does not parse, the channel fails with the parser's error,
   * whatever the owner: an empty segment, a non-numeric text or a value out of range.
   */
  lemma ChannelRejectsBadSegment(obj: ChannelJson, prefix: string, segment: string)
    requires obj.uri == Some(prefix + "/" + segment) && '/' !in segment
    ensures Int64.Parse(segment).Failure? ==> NewChannel(obj) == Failure(Int64.Parse(segment).error)
    ensures segment == "" ==> NewChannel(obj) == Failure(FormatError)
  {
    LastSegmentAfterSlash(prefix, segment);
    if segment == "" {
      ParseBlank(segment);
    }
  }

  /**
   * A channel with a good URI whose owner has a bad one fails with the owner's error: a
   * missing owner URI gives the null reference, a bad last segment the parser's error.
   */
  lemma ChannelOwnerFailure(obj: ChannelJson, prefix: string, segment: string)
    requires IdFromUri(obj.uri).Success?
    requires obj.user.Some?
    ensures obj.user.value.uri.None? ==> NewChannel(obj) == Failure(NullReference)
    ensures obj.user.value.uri == Some(prefix + "/" + segment) && '/' !in segment && Int64.Parse(segment).Failure? ==>
      NewChannel(obj) == Failure(Int64.Parse(segment).error)
  {
    OwnerErrorPropagates(obj);
    if obj.user.value.uri == Some(prefix + "/" + segment) && '/' !in segment {
      LastSegmentAfterSlash(prefix, segment);
    }
  }

  /** The owner's construction error is the channel's error. */
  lemma OwnerErrorPropagates(obj: ChannelJson)
    requires IdFromUri(obj.uri).Success? && obj.user.Some?
    ensures NewUser(obj.user.value).Failure? ==> NewChannel(obj) == Failure(IdFromUri(obj.user.value.uri).error)
  {
  }

  /** A channel whose URI and owner URI both end in decimal numbers gets both IDs. */
  lemma ChannelAndOwnerIds(obj: ChannelJson, prefix: string, n: int64, ownerPrefix: string, m: int64)
    requires obj.uri == Some(prefix + "/" + Format(n))
    requires obj.user.Some? && obj.user.value.uri == Some(ownerPrefix + "/" + Format(m))
    ensures NewChannel(obj).Success?
    ensures NewChannel(obj).value.id == n && NewChannel(obj).value.user.Some? && NewChannel(obj).value.user.value.id == m
  {
    IdRoundTrip(prefix, n);
    IdRoundTrip(ownerPrefix, m);
  }

  /** A channel read from an object without description, pictures or header reports none of them. */
  lemma ChannelMissingFieldsReportAbsent(obj: ChannelJson)
    requires obj.description.None? && obj.pictures.None? && obj.header.None?
    requires NewChannel(obj).Success?
    ensures var c := NewChannel(obj).value; !c.HasDescription() && !c.HasPicture() && !c.HasHeader()
  {
  }
}
