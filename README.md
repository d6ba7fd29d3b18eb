# Skybrud.Social.Vimeo — a Dafny model of its core

Skybrud.Social.Vimeo is a C# client for the Vimeo REST API. Most of it sends an HTTP request and
copies fields out of the JSON reply. This model covers the four places where the library makes
its own decisions:

- **Scope collections** (`VimeoScopeCollection`). An ordered list of OAuth scopes that grows in
  place through `Add` and `+`. It hands out copies of its contents and writes itself as a
  space-separated string. `Parse` reads that string back against the registry of known scopes.
  The model is the class `Scopes.ScopeCollection`, whose field `list` is the private `_list`.
  The LINQ parts are pure functions: `Scopes.ParseScopes`, `Scopes.JoinedNames`, `Scopes.Resolve`.
- **IDs derived from URIs** (`VimeoUser`, `VimeoChannel`). The API does not send an ID. Both
  classes compute it as `Int64.Parse(Uri.Split('/').Last())`. The rule is `UriIds.IdFromUri`.
  It is built on models of .NET's `String.Split` (`Text`) and of `Int64.Parse` and
  `Int64.ToString` (`Int64`). The exception the C# code throws appears as a `Failure`.
- **Users and channels** (`Users`, `Channels`). Each one is a value built once by a constructor
  that may fail, plus its `HasX` presence flags and the null guard of `Parse`.
- **The OAuth client** (`OAuth`). The constructors set the fixed vimeo.com OAuth endpoints.
  `PrepareHttpRequest` puts the API host in front of a URL that starts with `/`.

A .NET reference that may be null is an `Option`. A call that may throw is a `Result`, whose
`ParseError` names the exception.

## Model

| member | source | states |
|---|---|---|
| `Text.IsNullOrWhiteSpace` | src/Skybrud.Social.Vimeo/Objects/Users/VimeoUser.cs:46 | A text counts as present, and the test is false, exactly when it is non-null and holds a character other than white space. The empty string is blank. |
| `Text.StartsWith` | src/Skybrud.Social.Vimeo/OAuth/VimeoOAuthClient.cs:101 | `s` starts with `prefix` exactly when `s` is `prefix` followed by the rest of `s`. |
| `Text.Split` | src/Skybrud.Social.Vimeo/Objects/Users/VimeoUser.cs:109 | `String.Split(char)` always gives at least one piece, and no piece holds the separator. |
| `Text.JoinSplit` | src/Skybrud.Social.Vimeo/Objects/Users/VimeoUser.cs:109 | Joining the pieces of a split with the separator gives back the original string. |
| `Text.LastSegment` | src/Skybrud.Social.Vimeo/Objects/Users/VimeoUser.cs:109 | `Split('/').Last()` is the slash-free suffix that is either the whole string or directly follows a slash. |
| `Text.Join` | src/Skybrud.Social.Vimeo/Scopes/VimeoScopeCollection.cs:86 | `String.Join` of no parts is `""`. Of one part, it is that part. |
| `Text.SplitJoin` | src/Skybrud.Social.Vimeo/Scopes/VimeoScopeCollection.cs:86 | Splitting a join of separator-free pieces gives back the pieces, empty ones included. |
| `Text.RemoveEmpty` | src/Skybrud.Social.Vimeo/Scopes/VimeoScopeCollection.cs:104 | `RemoveEmptyEntries` keeps only non-empty pieces, each one taken from the input. When no piece is empty, it changes nothing. A single piece is dropped exactly when it is empty. |
| `Text.RemoveEmptyAppend` | src/Skybrud.Social.Vimeo/Scopes/VimeoScopeCollection.cs:104 | Removing empty pieces from `a + b` is removing them from `a` and from `b` and appending the results: with the one-piece case, this fixes the output, order included. |
| `Text.Tokens` | src/Skybrud.Social.Vimeo/Scopes/VimeoScopeCollection.cs:104 | Every token is non-empty and free of the separator. |
| `Text.TokensOfSeparators` | src/Skybrud.Social.Vimeo/Scopes/VimeoScopeCollection.cs:104 | A string made only of separators has no tokens. |
| `Text.SingleToken` | src/Skybrud.Social.Vimeo/Scopes/VimeoScopeCollection.cs:104 | A non-empty string without the separator is a single token, tabs included. |
| `Text.TokensOfJoin` | src/Skybrud.Social.Vimeo/Scopes/VimeoScopeCollection.cs:86 | Non-empty, separator-free pieces survive a join followed by a split with empty entries removed. |
| `Text.TokensOfJoinAll` | src/Skybrud.Social.Vimeo/Scopes/VimeoScopeCollection.cs:104 | Every string is a join of separator-free pieces; its tokens are exactly those pieces that are non-empty, in order. So doubled, leading and trailing separators add no token. |
| `Text.TokensExample` | src/Skybrud.Social.Vimeo/Scopes/VimeoScopeCollection.cs:104 | `" read  write "` splits into exactly the tokens `read` and `write`. |
| `Int64.Parse` | src/Skybrud.Social.Vimeo/Objects/Users/VimeoUser.cs:109 | `Int64.Parse` never throws a null-reference error on a string. It succeeds only when the string holds a digit. |
| `Int64.ParseWellFormed` | src/Skybrud.Social.Vimeo/Objects/Users/VimeoUser.cs:109 | A string that is white space, an optional sign, digits and white space parses to its signed value when that fits in 64 bits, and is an `OverflowException` otherwise. |
| `Int64.ParseFormatOk` | src/Skybrud.Social.Vimeo/Objects/Users/VimeoUser.cs:109 | A string that is not a format error has the shape white space, optional sign, digits, white space, and a success is its value. |
| `Int64.ParseIff` | src/Skybrud.Social.Vimeo/Objects/Users/VimeoUser.cs:109 | `Int64.Parse(s)` returns `v` exactly when `s` has that shape with value `v`. |
| `Int64.ParseMalformed` | src/Skybrud.Social.Vimeo/Objects/Users/VimeoUser.cs:109 | `Int64.Parse(s)` is a `FormatException` exactly when `s` has that shape for no value. |
| `Int64.ParsePlusExample` | src/Skybrud.Social.Vimeo/Objects/Users/VimeoUser.cs:109 | `"+5"` parses to 5. |
| `Int64.ParseMinusZerosExample` | src/Skybrud.Social.Vimeo/Objects/Users/VimeoUser.cs:109 | `"-007"` parses to -7. |
| `Int64.ParseRejectExamples` | src/Skybrud.Social.Vimeo/Objects/Users/VimeoUser.cs:109 | `"1-2"`, `"-"` and `" 1 2 "` are format errors. |
| `Int64.ParseFormat` | src/Skybrud.Social.Vimeo/Objects/Users/VimeoUser.cs:109 | `Int64.Parse(n.ToString()) == n` for every 64-bit `n`, negative ones included. |
| `Int64.ParsePadded` | src/Skybrud.Social.Vimeo/Objects/Users/VimeoUser.cs:109 | For a non-negative number, surrounding white space and leading zeros do not change the parsed value. Signed inputs are covered by `Int64.ParseWellFormed`. |
| `Int64.ParseTooLarge` | src/Skybrud.Social.Vimeo/Objects/Users/VimeoUser.cs:109 | A digit string above `Int64.MaxValue` is an `OverflowException`, not a format error. |
| `Int64.ParseTooSmall` | src/Skybrud.Social.Vimeo/Objects/Users/VimeoUser.cs:109 | A negative number below `Int64.MinValue` is an `OverflowException`. |
| `Int64.ParseForeignChar` | src/Skybrud.Social.Vimeo/Objects/Users/VimeoUser.cs:109 | A character that is neither white space, a digit nor a sign makes a `FormatException`. |
| `Int64.ParseBlank` | src/Skybrud.Social.Vimeo/Objects/Users/VimeoUser.cs:109 | An empty or all-white-space string makes a `FormatException`. |
| `Int64.ParseNoDigit` | src/Skybrud.Social.Vimeo/Objects/Users/VimeoUser.cs:109 | A text without a digit, such as a sign alone, makes a `FormatException`. |
| `Int64.ParseSignAfterDigit` | src/Skybrud.Social.Vimeo/Objects/Users/VimeoUser.cs:109 | A sign anywhere after a digit makes a `FormatException`. |
| `Int64.ParseSpaceBetweenDigits` | src/Skybrud.Social.Vimeo/Objects/Users/VimeoUser.cs:109 | White space between two digits makes a `FormatException`. |
| `Int64.DecimalValue` | src/Skybrud.Social.Vimeo/Objects/Users/VimeoUser.cs:109 | Reading back the decimal digits of `n` gives `n`. |
| `UriIds.IdFromUri` | src/Skybrud.Social.Vimeo/Objects/Users/VimeoUser.cs:108-109 | A null URI, and only a null URI, is a null-reference failure. A successful ID comes from a URI that holds a digit. |
| `UriIds.LastSegmentAfterSlash` | src/Skybrud.Social.Vimeo/Objects/Channels/VimeoChannel.cs:107 | Whatever precedes the last slash, only the slash-free segment after it is parsed. |
| `UriIds.IdWithoutSlash` | src/Skybrud.Social.Vimeo/Objects/Channels/VimeoChannel.cs:107 | A URI without a slash is parsed whole. |
| `UriIds.IdRoundTrip` | src/Skybrud.Social.Vimeo/Objects/Users/VimeoUser.cs:109 | `prefix + "/" + n.ToString()` yields ID `n`, for every 64-bit `n`. |
| `UriIds.IdTrailingSlash` | src/Skybrud.Social.Vimeo/Objects/Channels/VimeoChannel.cs:107 | A URI ending in `/` fails with a `FormatException`. |
| `UriIds.IdNonNumeric` | src/Skybrud.Social.Vimeo/Objects/Channels/VimeoChannel.cs:107 | A last segment that is not white space, an optional sign, digits and white space fails with a `FormatException`. |
| `UriIds.IdFromSegment` | src/Skybrud.Social.Vimeo/Objects/Channels/VimeoChannel.cs:107 | The ID is `v` exactly when the last segment has that shape with value `v`. |
| `UriIds.IdOverflow` | src/Skybrud.Social.Vimeo/Objects/Channels/VimeoChannel.cs:107 | A numeric last segment beyond 64 bits fails with an `OverflowException`. |
| `Users.NewUser` | src/Skybrud.Social.Vimeo/Objects/Users/VimeoUser.cs:107-121 | Construction fails exactly when the ID derivation fails, and with its error (a null URI is a null reference). Otherwise the ID is the one derived from the stored URI, and every other value is kept as read. |
| `Users.ParseUser` | src/Skybrud.Social.Vimeo/Objects/Users/VimeoUser.cs:132-134 | Null, and only null, gives null. A non-null object gives the constructor's user or its failure. |
| `Users.UserIdRoundTrip` | src/Skybrud.Social.Vimeo/Objects/Users/VimeoUser.cs:109 | A user whose URI ends in `/` and the decimal form of `n` has ID `n`. |
| `Users.UserRejectsBadSegment` | src/Skybrud.Social.Vimeo/Objects/Users/VimeoUser.cs:108-109 | An unparsable last segment fails construction with the parser's error, and never gives a default ID. An empty segment is a format error. |
| `Users.MissingFieldsReportAbsent` | src/Skybrud.Social.Vimeo/Objects/Users/VimeoUser.cs:44-96 | Without location, bio, pictures and websites, every `HasX` flag is false. |
| `Users.User.HasLocation` | src/Skybrud.Social.Vimeo/Objects/Users/VimeoUser.cs:45-47 | True exactly when the location is non-null and holds a character other than white space; then it is non-empty. |
| `Users.User.HasBio` | src/Skybrud.Social.Vimeo/Objects/Users/VimeoUser.cs:57-59 | True exactly when the bio is non-null and holds a character other than white space; then it is non-empty. |
| `Users.User.HasPicture` | src/Skybrud.Social.Vimeo/Objects/Users/VimeoUser.cs:81-83 | As written: true exactly when the bio, not the picture, holds a character other than white space. |
| `Users.User.HasPictureIntended` | src/Skybrud.Social.Vimeo/Objects/Users/VimeoUser.cs:75-83 | The documented flag: true exactly when a picture was read. |
| `Users.User.HasWebsites` | src/Skybrud.Social.Vimeo/Objects/Users/VimeoUser.cs:94-96 | False exactly when no website was read. |
| `Users.PresenceOfText` | src/Skybrud.Social.Vimeo/Objects/Users/VimeoUser.cs:45-59 | An empty or all-white-space location or bio is absent. One character other than white space anywhere in it makes it present. |
| `Users.HasPictureIsHasBio` | src/Skybrud.Social.Vimeo/Objects/Users/VimeoUser.cs:82 | As written, `HasPicture` equals `HasBio`, regardless of the picture. |
| `Users.HasPictureIgnoresPicture` | src/Skybrud.Social.Vimeo/Objects/Users/VimeoUser.cs:82 | A user with a picture and no bio reports no picture. A user with a bio and no picture reports one. |
| `Users.HasPictureIntendedFollowsPicture` | src/Skybrud.Social.Vimeo/Objects/Users/VimeoUser.cs:75-83 | The corrected flag holds iff a picture is present, whatever the bio. |
| `Channels.Channel.HasDescription` | src/Skybrud.Social.Vimeo/Objects/Channels/VimeoChannel.cs:42-44 | True exactly when the description is non-null and holds a character other than white space; then it is non-empty. |
| `Channels.Channel.HasPicture` | src/Skybrud.Social.Vimeo/Objects/Channels/VimeoChannel.cs:75-77 | True exactly when a picture was read. |
| `Channels.Channel.HasHeader` | src/Skybrud.Social.Vimeo/Objects/Channels/VimeoChannel.cs:87-89 | True exactly when a header picture was read. |
| `Channels.NewChannel` | src/Skybrud.Social.Vimeo/Objects/Channels/VimeoChannel.cs:105-119 | A bad URI fails construction with the ID error, before the owner is read. Otherwise construction succeeds exactly when the owner parses, and an owner failure is the channel's failure with the same error. A success stores the derived ID, the parsed owner and every other value as read. |
| `Channels.ParseChannel` | src/Skybrud.Social.Vimeo/Objects/Channels/VimeoChannel.cs:130-132 | Null, and only null, gives null. A non-null object gives the constructor's channel or its failure. |
| `Channels.ChannelIdRoundTrip` | src/Skybrud.Social.Vimeo/Objects/Channels/VimeoChannel.cs:107 | A channel whose URI ends in `/` and the decimal form of `n` has ID `n` (when its owner parses). |
| `Channels.ChannelRejectsBadSegment` | src/Skybrud.Social.Vimeo/Objects/Channels/VimeoChannel.cs:106-107 | An unparsable last segment fails the channel with the parser's error, whatever the owner. |
| `Channels.ChannelOwnerFailure` | src/Skybrud.Social.Vimeo/Objects/Channels/VimeoChannel.cs:113 | For any channel with a good URI, an owner object without a URI fails it with a null reference, and an owner whose last URI segment does not parse fails it with the parser's error. |
| `Channels.ChannelAndOwnerIds` | src/Skybrud.Social.Vimeo/Objects/Channels/VimeoChannel.cs:107-113 | A channel and its owner whose URIs end in `/` and decimal numbers get those numbers as their IDs. |
| `Channels.ChannelMissingFieldsReportAbsent` | src/Skybrud.Social.Vimeo/Objects/Channels/VimeoChannel.cs:42-89 | Without description, pictures and header, `HasDescription`, `HasPicture` and `HasHeader` are false. |
| `Scopes.Resolve` | src/Skybrud.Social.Vimeo/Scopes/VimeoScopeCollection.cs:105-106 | The result carries the token as its alias. It is the first registry entry with that alias, or a placeholder when there is none. |
| `Scopes.Placeholder` | src/Skybrud.Social.Vimeo/Scopes/VimeoScopeCollection.cs:106 | A scope for an unknown token carries the token as alias and no name or description. |
| `Scopes.ParseScopes` | src/Skybrud.Social.Vimeo/Scopes/VimeoScopeCollection.cs:102-108 | One scope per non-empty space-separated token, in order. Scope `i` is the token's registry lookup, so it has token `i` as alias and is a registry entry or a placeholder for the token. |
| `Scopes.ParseJoined` | src/Skybrud.Social.Vimeo/Scopes/VimeoScopeCollection.cs:102-108 | Parsing space-free pieces joined by spaces resolves exactly the non-empty pieces, in order. |
| `Scopes.ParseSpacedExample` | src/Skybrud.Social.Vimeo/Scopes/VimeoScopeCollection.cs:102-108 | `Parse(" read  write ")` gives the scopes `read` and `write`, in that order. |
| `Scopes.Names` | src/Skybrud.Social.Vimeo/Scopes/VimeoScopeCollection.cs:70-72 | One name per scope, in order, nulls included. |
| `Scopes.JoinedNames` | src/Skybrud.Social.Vimeo/Scopes/VimeoScopeCollection.cs:85-87 | The empty collection gives `""`. A single scope gives its name, or `""` for a null name. |
| `Scopes.ToStringTokens` | src/Skybrud.Social.Vimeo/Scopes/VimeoScopeCollection.cs:86 | When every name is present, non-empty and space-free, splitting `ToString()` on spaces without empty entries gives `ToStringArray()`. |
| `Scopes.ParseToStringAliases` | src/Skybrud.Social.Vimeo/Scopes/VimeoScopeCollection.cs:104-106 | Parsing `ToString()` gives one scope per scope, in order, each with the original's name as alias. |
| `Scopes.ParseToStringRegistered` | src/Skybrud.Social.Vimeo/Scopes/VimeoScopeCollection.cs:104-106 | Take a registry with distinct aliases, and registered scopes whose name equals their alias. Parsing the collection's `ToString()` rebuilds it exactly. |
| `Scopes.ParseNullOrBlank` | src/Skybrud.Social.Vimeo/Scopes/VimeoScopeCollection.cs:104 | `Parse(null)` and `Parse` of a string of spaces give no scopes. |
| `Scopes.ParseSingleToken` | src/Skybrud.Social.Vimeo/Scopes/VimeoScopeCollection.cs:104 | Only the space separates tokens: a token holding tabs gives one scope with that alias. |
| `Scopes.ScopeCollection.constructor` | src/Skybrud.Social.Vimeo/Scopes/VimeoScopeCollection.cs:34-44 | The collection holds exactly the given scopes, in order, duplicates included. |
| `Scopes.ScopeCollection.FromScope` | src/Skybrud.Social.Vimeo/Scopes/VimeoScopeCollection.cs:119-121 | A new collection holding only that scope. |
| `Scopes.ScopeCollection.FromArray` | src/Skybrud.Social.Vimeo/Scopes/VimeoScopeCollection.cs:128-130 | A new collection holding the array's scopes. A null array gives an empty collection. |
| `Scopes.ScopeCollection.Add` | src/Skybrud.Social.Vimeo/Scopes/VimeoScopeCollection.cs:54-56 | The scope is appended at the end. The length grows by one, and earlier items are unchanged. |
| `Scopes.ScopeCollection.Plus` | src/Skybrud.Social.Vimeo/Scopes/VimeoScopeCollection.cs:137-140 | `collection + scope` appends to `collection` in place and returns that same object. |
| `Scopes.ScopeCollection.ToArray` | src/Skybrud.Social.Vimeo/Scopes/VimeoScopeCollection.cs:62-64 | A new array with the scopes, in insertion order. |
| `Scopes.ScopeCollection.Items` | src/Skybrud.Social.Vimeo/Scopes/VimeoScopeCollection.cs:24 | A new array with the scopes, in insertion order. |
| `Scopes.ScopeCollection.ToStringArray` | src/Skybrud.Social.Vimeo/Scopes/VimeoScopeCollection.cs:70-72 | A new array of the collection's length, where element `i` is the name of scope `i`. |
| `Scopes.ScopeCollection.ToString` | src/Skybrud.Social.Vimeo/Scopes/VimeoScopeCollection.cs:85-87 | The names joined by single spaces, so an empty collection gives `""`. With plain names, splitting the string on spaces without empty entries gives exactly `ToStringArray()`, in order. |
| `Scopes.ScopeCollection.Parse` | src/Skybrud.Social.Vimeo/Scopes/VimeoScopeCollection.cs:102-108 | A new collection holding the parsed scopes. |
| `OAuth.WithApiHost` | src/Skybrud.Social.Vimeo/OAuth/VimeoOAuthClient.cs:101 | A URL starting with `/` gets `https://api.vimeo.com` in front, and any other URL is unchanged. The result never starts with `/` and ends with the original URL. |
| `OAuth.WithApiHostIdempotent` | src/Skybrud.Social.Vimeo/OAuth/VimeoOAuthClient.cs:101 | Applying the prefix step twice is the same as applying it once. |
| `OAuth.OAuthClient.PrepareHttpRequest` | src/Skybrud.Social.Vimeo/OAuth/VimeoOAuthClient.cs:96-103 | The request's URL is replaced by its prefixed form. A null URL is the null-reference failure, and the request is left as it was. |
| `OAuth.OAuthClient.constructor` | src/Skybrud.Social.Vimeo/OAuth/VimeoOAuthClient.cs:67-86 | The five arguments are stored unchanged, and the three OAuth endpoint URLs are the fixed vimeo.com ones. |
| `OAuth.OAuthClient.Default` | src/Skybrud.Social.Vimeo/OAuth/VimeoOAuthClient.cs:41 | The same state as the five-argument constructor with every argument null. |
| `OAuth.OAuthClient.WithConsumer` | src/Skybrud.Social.Vimeo/OAuth/VimeoOAuthClient.cs:48 | The same state as the five-argument constructor with a null token, token secret and callback. |
| `OAuth.OAuthClient.WithToken` | src/Skybrud.Social.Vimeo/OAuth/VimeoOAuthClient.cs:57 | The same state as the five-argument constructor with a null callback. |

## Findings

| source | as written | input that shows it | evidently intended | confidence | as-written member | corrected member |
|---|---|---|---|---|---|---|
| src/Skybrud.Social.Vimeo/Objects/Users/VimeoUser.cs:82 | `HasPicture` returns `!String.IsNullOrWhiteSpace(Bio)` | A user with a `pictures` object and no `bio` reports no picture. A user with a bio and no picture reports one. | `HasPicture` is true iff `Picture` is not null, as documented at lines 75-80 and as `VimeoChannel.HasPicture` does | high; not executed | `Users.HasPictureIgnoresPicture` | `Users.HasPictureIntendedFollowsPicture` |

`User.HasPicture` keeps the behaviour as written. `User.HasPictureIntended` is the corrected flag.

## Left out

- The endpoint classes, the channel-videos response wrapper and the field-copy models (`VimeoCollection`, video files and stats, channel privacy, `VimeoObject`) are left out. Each only delegates to an HTTP call or copies JSON keys through helper code that is not part of this model.
- The Skybrud.Essentials JSON helpers (`GetString`, `GetObject`, `GetArrayItems`, `GetEnum`) are not part of this model. The constructors receive the values those helpers return as the fields of `UserJson` and `ChannelJson`. A missing string is null. The channel's owner is the raw user object, or null, and is then passed to `VimeoUser.Parse`. `websites` is always an array.
- `VimeoPicture`, `VimeoUserWebsite`, `EssentialsDateTime` and `VimeoChannelPrivacy` are not part of this model. They are abstract types, and their parsers are not modelled.
- `VimeoScope` is not part of this model. It is a datatype with an alias, a name and a description. The unknown-token placeholder `new VimeoScope(alias, null, null)` is read as alias first, with a null name and description. The registry `VimeoScope.All` is a parameter, and its entries are assumed non-null.
- Scope parsing follows the code: only the space character separates tokens. Combining collections keeps duplicates, since the code never removes them.
- `Scopes.ScopeCollection`: null scopes are not modelled. The collection's elements and the left operand of `+` are assumed non-null. In C#, `Add(null)`, the implicit conversion of a null scope, or a null element in an array would make `ToStringArray` and `ToString` throw `NullReferenceException` (VimeoScopeCollection.cs:71 and :86), and `null + scope` throws at :138.
- `GetEnumerator` and the `IEnumerable` interface are left out. Enumeration visits `list` in order.
- `Scopes.ScopeCollection.constructor` takes a non-null sequence. Passing a null array straight to the C# constructor throws `ArgumentNullException` from `AddRange`. Only the implicit conversion guards against null, and `FromArray` models that guard.
- `Int64.Parse` follows `NumberStyles.Integer` in the invariant culture: white space, an optional `+` or `-`, digits, white space. Trailing NUL characters, which .NET also accepts, and culture-specific sign symbols are not modelled.
- `OAuth.WithApiHost`: `StartsWith("/")` is treated as an ordinal comparison. .NET's culture-sensitive comparison, which may ignore some zero-width characters, is not modelled.
- `base.PrepareHttpRequest`, OAuth 1.0a signing, and the raw endpoint objects (`Channels`, `Me`, `Users`, `Videos`) that the constructor creates are left out. They are code that is not part of this model.
