/**
 * The ID of a user or a channel is not sent by the API: both derive it from the `uri` field
 * as `Int64.Parse(Uri.Split('/').Last())`.
 */
module UriIds {
  import opened Wrappers
  import opened Text
  import opened Int64

  /** The ID derived from a URI; a null URI fails before anything is parsed. */
  function IdFromUri(uri: Option<string>): (r: Result<int64, ParseError>)
    ensures r == Failure(NullReference) <==> uri.None?
    ensures r.Success? ==> exists i :: 0 <= i < |uri.value| && IsDigit(uri.value[i])
  {
    match uri
    case None => Failure(NullReference)
    case Some(s) =>
      var r := Int64.Parse(LastSegment(s, '/'));
      assert r.Success? ==> exists i :: 0 <= i < |s| && IsDigit(s[i]) by {
        if r.Success? {
          var seg := LastSegment(s, '/');
          var i :| 0 <= i < |seg| && IsDigit(seg[i]);
          assert seg[i] == s[|s| - |seg| + i];
        }
      }
      r
  }

  /** Whatever precedes the last slash, the segment after it is what gets parsed. */
  lemma LastSegmentAfterSlash(prefix: string, segment: string)
    requires '/' !in segment
    ensures LastSegment(prefix + "/" + segment, '/') == segment
  {
    var s := prefix + "/" + segment;
    var r := LastSegment(s, '/');
    assert s[|s| - |segment| - 1] == '/';
    assert s[|s| - |segment|..] == segment;
    assert forall k :: |s| - |r| <= k < |s| ==> s[k] != '/' by {
      assert forall k :: |s| - |r| <= k < |s| ==> s[k] == r[k - (|s| - |r|)];
    }
    assert forall k :: |s| - |segment| <= k < |s| ==> s[k] != '/' by {
      assert forall k :: |s| - |segment| <= k < |s| ==> s[k] == segment[k - (|s| - |segment|)];
    }
  }

  /** A URI without a slash is parsed whole. */
  lemma IdWithoutSlash(s: string)
    requires '/' !in s
    ensures IdFromUri(Some(s)) == Int64.Parse(s)
  {
    assert forall k :: 0 <= k < |s| ==> s[k] != '/';
  }

  /** `prefix + "/" + n.ToString()` yields the ID `n`, for every 64-bit `n`. */
  lemma IdRoundTrip(prefix: string, n: int64)
    ensures IdFromUri(Some(prefix + "/" + Format(n))) == Success(n)
  {
    var d := Format(n);
    assert '/' !in d by {
      if n < 0 { assert d == "-" + Decimal(-(n as int)); }
    }
    LastSegmentAfterSlash(prefix, d);
    ParseFormat(n);
  }

  /** A URI that ends in a slash leaves an empty segment: a `FormatError`. */
  lemma IdTrailingSlash(prefix: string)
    ensures IdFromUri(Some(prefix + "/")) == Failure(FormatError)
  {
    LastSegmentAfterSlash(prefix, "");
    assert prefix + "/" + "" == prefix + "/";
    ParseBlank("");
  }

  /**
   * A last segment that is not an integer text (white space, an optional sign, digits, white
   * space) is a `FormatError`: a foreign character, a sign between digits, a lone sign, white
   * space between digits.
   */
  lemma IdNonNumeric(prefix: string, segment: string)
    requires '/' !in segment
    requires forall v :: !WellFormed(segment, v)
    ensures IdFromUri(Some(prefix + "/" + segment)) == Failure(FormatError)
  {
    LastSegmentAfterSlash(prefix, segment);
    ParseMalformed(segment);
  }

  /** The ID is `v` exactly when the last segment is an integer text of value `v`. */
  lemma IdFromSegment(prefix: string, segment: string, v: int64)
    requires '/' !in segment
    ensures IdFromUri(Some(prefix + "/" + segment)) == Success(v) <==> WellFormed(segment, v as int)
  {
    LastSegmentAfterSlash(prefix, segment);
    ParseIff(segment, v);
  }

  /** A numeric last segment beyond the 64-bit range: an `OverflowError`, never a default ID. */
  lemma IdOverflow(prefix: string, digits: string)
    requires |digits| >= 1 && AllDigits(digits) && DigitsValue(digits) > MaxValue
    ensures IdFromUri(Some(prefix + "/" + digits)) == Failure(OverflowError)
  {
    assert '/' !in digits by {
      assert forall k :: 0 <= k < |digits| ==> digits[k] != '/';
    }
    LastSegmentAfterSlash(prefix, digits);
    ParseTooLarge(digits);
  }
}
