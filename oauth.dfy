/** `VimeoOAuthClient`: the fixed OAuth 1.0a endpoints and the request-URL prefix step. */
module OAuth {
  import opened Wrappers
  import opened Text

  const ApiHost: string := "https://api.vimeo.com"
  const RequestTokenEndpoint: string := "https://vimeo.com/oauth/request_token"
  const AuthorizeEndpoint: string := "https://vimeo.com/oauth/authorize"
  const AccessTokenEndpoint: string := "https://vimeo.com/oauth/access_token"

  /**
   * The step `PrepareHttpRequest` adds: a URL starting with `/` is a path on the API host and
   * gets the scheme and host in front; any other URL is already absolute and stays as it is.
   */
  function WithApiHost(url: string): (r: string)
    ensures StartsWith(url, "/") ==> r == ApiHost + url
    ensures !StartsWith(url, "/") ==> r == url
    ensures !StartsWith(r, "/")
    ensures |url| <= |r| && r[|r| - |url|..] == url
  {
    if StartsWith(url, "/") then
      assert (ApiHost + url)[0] == 'h';
      ApiHost + url
    else url
  }

  /** Applying the prefix step twice is the same as applying it once. */
  lemma WithApiHostIdempotent(url: string)
    ensures WithApiHost(WithApiHost(url)) == WithApiHost(url)
  {
  }

  /** The request object the client configures; only its URL is modelled. */
  class HttpRequest {
    var url: Option<string>

    constructor (url: Option<string>)
      ensures this.url == url
    {
      this.url := url;
    }
  }

  class OAuthClient {
    var consumerKey: Option<string>
    var consumerSecret: Option<string>
    var token: Option<string>
    var tokenSecret: Option<string>
    var callback: Option<string>
    var requestTokenUrl: string
    var authorizeUrl: string
    var accessTokenUrl: string

    /** The state every constructor leaves: the given credentials and the three fixed endpoints. */
    predicate Configured(consumerKey: Option<string>, consumerSecret: Option<string>,
                         token: Option<string>, tokenSecret: Option<string>, callback: Option<string>)
      reads this
    {
      this.consumerKey == consumerKey && this.consumerSecret == consumerSecret
      && this.token == token && this.tokenSecret == tokenSecret && this.callback == callback
      && requestTokenUrl == RequestTokenEndpoint && authorizeUrl == AuthorizeEndpoint
      && accessTokenUrl == AccessTokenEndpoint
    }

    /** The five-argument constructor: every argument is stored as given. */
    constructor (consumerKey: Option<string>, consumerSecret: Option<string>,
                 token: Option<string>, tokenSecret: Option<string>, callback: Option<string>)
      ensures Configured(consumerKey, consumerSecret, token, tokenSecret, callback)
    {
      this.consumerKey := consumerKey;
      this.consumerSecret := consumerSecret;
      this.token := token;
      this.tokenSecret := tokenSecret;
      this.callback := callback;
      requestTokenUrl := RequestTokenEndpoint;
      authorizeUrl := AuthorizeEndpoint;
      accessTokenUrl := AccessTokenEndpoint;
    }

    /** The parameterless constructor: as the five-argument one with every argument null. */
    constructor Default()
      ensures Configured(None, None, None, None, None)
    {
      consumerKey, consumerSecret, token, tokenSecret, callback := None, None, None, None, None;
      requestTokenUrl, authorizeUrl, accessTokenUrl := RequestTokenEndpoint, AuthorizeEndpoint, AccessTokenEndpoint;
    }

    /** The two-argument constructor: no token, token secret or callback. */
    constructor WithConsumer(consumerKey: Option<string>, consumerSecret: Option<string>)
      ensures Configured(consumerKey, consumerSecret, None, None, None)
    {
      this.consumerKey, this.consumerSecret := consumerKey, consumerSecret;
      token, tokenSecret, callback := None, None, None;
      requestTokenUrl, authorizeUrl, accessTokenUrl := RequestTokenEndpoint, AuthorizeEndpoint, AccessTokenEndpoint;
    }

    /** The four-argument constructor: no callback. */
    constructor WithToken(consumerKey: Option<string>, consumerSecret: Option<string>,
                          token: Option<string>, tokenSecret: Option<string>)
      ensures Configured(consumerKey, consumerSecret, token, tokenSecret, None)
    {
      this.consumerKey, this.consumerSecret := consumerKey, consumerSecret;
      this.token, this.tokenSecret, callback := token, tokenSecret, None;
      requestTokenUrl, authorizeUrl, accessTokenUrl := RequestTokenEndpoint, AuthorizeEndpoint, AccessTokenEndpoint;
    }

    /**
     * The prefix step of `PrepareHttpRequest`, after the base class has had its turn. A null
     * URL makes `StartsWith` throw: `ok` is false then and nothing changes.
     */
    method PrepareHttpRequest(request: HttpRequest) returns (ok: bool)
      modifies request
      ensures ok <==> old(request.url).Some?
      ensures ok ==> request.url == Some(WithApiHost(old(request.url).value))
      ensures !ok ==> request.url == old(request.url)
    {
      match request.url
      case None =>
        ok := false;
      case Some(url) =>
        ok := true;
        if StartsWith(url, "/") {
          request.url := Some(ApiHost + url);
        }
    }
  }
}
