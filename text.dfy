/** The .NET string operations the core relies on, over `seq<char>`. */
module Text {
  import opened Wrappers

  /** `Char.IsWhiteSpace`: the Unicode space separators, line and paragraph separators, and U+0009..U+000D, U+0085. */
  predicate IsWhiteSpace(c: char) {
    c == ' ' || ('\t' <= c <= '\r') || c == '\U{0085}' || c == '\U{00A0}' || c == '\U{1680}'
    || ('\U{2000}' <= c <= '\U{200A}') || c == '\U{2028}' || c == '\U{2029}' || c == '\U{202F}'
    || c == '\U{205F}' || c == '\U{3000}'
  }

  /** `String.IsNullOrWhiteSpace`: null, empty, or made of white-space characters only. */
  function IsNullOrWhiteSpace(s: Option<string>): (r: bool)
    ensures !r <==> s.Some? && exists i :: 0 <= i < |s.value| && !IsWhiteSpace(s.value[i])
    ensures s == Some("") ==> r
  {
    match s
    case None => true
    case Some(t) => forall i :: 0 <= i < |t| ==> IsWhiteSpace(t[i])
  }

  /** Ordinal `String.StartsWith`. */
  function StartsWith(s: string, prefix: string): (r: bool)
    ensures r <==> |prefix| <= |s| && s == prefix + s[|prefix|..]
    ensures r ==> forall i :: 0 <= i < |prefix| ==> s[i] == prefix[i]
  {
    |prefix| <= |s| && s[..|prefix|] == prefix
  }

  /**
   * `String.Join(sep, parts)`: the parts with one `sep` between each neighbouring pair.
   */
  function Join(sep: char, parts: seq<string>): (s: string)
    ensures |parts| == 0 ==> s == ""
    ensures |parts| == 1 ==> s == parts[0]
  {
    if |parts| == 0 then ""
    else if |parts| == 1 then parts[0]
    else parts[0] + [sep] + Join(sep, parts[1..])
  }

  /**
   * `String.Split(sep)` without options: the pieces between separators, empty pieces kept,
   * so there is always at least one piece and none holds the separator.
   */
  function Split(s: string, sep: char): (parts: seq<string>)
    ensures |parts| >= 1
    ensures forall i :: 0 <= i < |parts| ==> sep !in parts[i]
    decreases |s|
  {
    if |s| == 0 then [""]
    else
      var rest := Split(s[1..], sep);
      if s[0] == sep then [""] + rest
      else [[s[0]] + rest[0]] + rest[1..]
  }

  /** `StringSplitOptions.RemoveEmptyEntries`: the non-empty pieces, in order. */
  function RemoveEmpty(parts: seq<string>): (r: seq<string>)
    ensures forall i :: 0 <= i < |r| ==> r[i] != "" && r[i] in parts
    ensures (forall i :: 0 <= i < |parts| ==> parts[i] != "") ==> r == parts
    ensures |parts| == 1 ==> r == (if parts[0] == "" then [] else parts)
  {
    if |parts| == 0 then []
    else if parts[0] == "" then RemoveEmpty(parts[1..])
    else [parts[0]] + RemoveEmpty(parts[1..])
  }

  /** `s.Split(new[] { sep }, StringSplitOptions.RemoveEmptyEntries)`. */
  function Tokens(s: string, sep: char): (r: seq<string>)
    ensures forall i :: 0 <= i < |r| ==> r[i] != "" && sep !in r[i]
  {
    RemoveEmpty(Split(s, sep))
  }

  /** `s.Split(sep).Last()`: the text after the last separator, or all of `s` when there is none. */
  function LastSegment(s: string, sep: char): (r: string)
    ensures sep !in r
    ensures |r| <= |s| && s[|s| - |r|..] == r
    ensures |r| < |s| ==> s[|s| - |r| - 1] == sep
  {
    var parts := Split(s, sep);
    JoinSplit(s, sep);
    JoinLast(parts, sep);
    parts[|parts| - 1]
  }

  /** Joining the pieces of a split gives back the original string. */
  lemma {:induction false} JoinSplit(s: string, sep: char)
    ensures Join(sep, Split(s, sep)) == s
    decreases |s|
  {
    if |s| > 0 {
      var rest := Split(s[1..], sep);
      JoinSplit(s[1..], sep);
      if s[0] == sep {
        JoinSplitSep(s, sep);
      } else {
        JoinSplitOther(s, sep);
      }
    }
  }

  lemma JoinSplitSep(s: string, sep: char)
    requires |s| > 0 && s[0] == sep
    requires Join(sep, Split(s[1..], sep)) == s[1..]
    ensures Join(sep, Split(s, sep)) == s
  {
    var rest := Split(s[1..], sep);
    var parts := [""] + rest;
    assert Split(s, sep) == parts;
    assert parts[1..] == rest;
    assert s == [sep] + s[1..];
  }

  lemma JoinSplitOther(s: string, sep: char)
    requires |s| > 0 && s[0] != sep
    requires Join(sep, Split(s[1..], sep)) == s[1..]
    ensures Join(sep, Split(s, sep)) == s
  {
    var rest := Split(s[1..], sep);
    var parts := [[s[0]] + rest[0]] + rest[1..];
    assert Split(s, sep) == parts;
    JoinPeel(parts, sep);
    assert parts[0][0] == s[0] && parts[0][1..] == rest[0];
    assert [rest[0]] + rest[1..] == rest;
    assert s == [s[0]] + s[1..];
  }

  /** A join ends with its last piece, after a separator when there is more than one piece. */
  lemma {:induction false} JoinLast(parts: seq<string>, sep: char)
    requires |parts| >= 1
    ensures var s := Join(sep, parts); var last := parts[|parts| - 1];
      |last| <= |s| && s[|s| - |last|..] == last
      && (|parts| == 1 ==> s == last)
      && (|parts| > 1 ==> |last| < |s| && s[|s| - |last| - 1] == sep)
  {
    if |parts| > 1 {
      JoinLast(parts[1..], sep);
      var s := Join(sep, parts);
      var t := Join(sep, parts[1..]);
      assert s == parts[0] + [sep] + t;
      assert parts[|parts| - 1] == parts[1..][|parts| - 2];
    }
  }

  /** Splitting a join of separator-free pieces gives back the pieces, empty ones included. */
  lemma {:induction false} SplitJoin(parts: seq<string>, sep: char)
    requires |parts| >= 1
    requires forall i :: 0 <= i < |parts| ==> sep !in parts[i]
    ensures Split(Join(sep, parts), sep) == parts
    decreases |parts|, |parts[0]|
  {
    if |parts[0]| > 0 {
      var parts' := [parts[0][1..]] + parts[1..];
      assert forall i :: 1 <= i < |parts'| ==> parts'[i] == parts[i];
      SplitJoin(parts', sep);
      SplitJoinPeel(parts, sep);
    } else if |parts| > 1 {
      SplitJoin(parts[1..], sep);
      SplitJoinEmpty(parts, sep);
    }
  }

  /** The step of `SplitJoin` for a non-empty first piece. */
  lemma SplitJoinPeel(parts: seq<string>, sep: char)
    requires |parts| >= 1 && |parts[0]| > 0 && sep !in parts[0]
    requires Split(Join(sep, [parts[0][1..]] + parts[1..]), sep) == [parts[0][1..]] + parts[1..]
    ensures Split(Join(sep, parts), sep) == parts
  {
    var p := parts[0];
    var parts' := [p[1..]] + parts[1..];
    JoinPeel(parts, sep);
    assert p[0] != sep by { assert p[0] in p; }
    SplitOther(p[0], Join(sep, parts'), sep);
    assert [p[0]] + p[1..] == p;
    assert parts'[1..] == parts[1..];
    assert parts == [p] + parts[1..];
  }

  /** The step of `SplitJoin` for an empty first piece followed by more pieces. */
  lemma SplitJoinEmpty(parts: seq<string>, sep: char)
    requires |parts| > 1 && parts[0] == ""
    requires Split(Join(sep, parts[1..]), sep) == parts[1..]
    ensures Split(Join(sep, parts), sep) == parts
  {
    var s := Join(sep, parts);
    assert s == [sep] + Join(sep, parts[1..]);
    assert s[1..] == Join(sep, parts[1..]);
    assert parts == [""] + parts[1..];
  }

  /** Joining pieces whose first one is non-empty puts that piece's first character in front. */
  lemma JoinPeel(parts: seq<string>, sep: char)
    requires |parts| >= 1 && |parts[0]| > 0
    ensures Join(sep, parts) == [parts[0][0]] + Join(sep, [parts[0][1..]] + parts[1..])
  {
    var p := parts[0];
    var parts' := [p[1..]] + parts[1..];
    assert parts'[1..] == parts[1..];
    assert p == [p[0]] + p[1..];
  }

  /** Splitting a string that starts with a non-separator extends its first piece. */
  lemma SplitOther(c: char, t: string, sep: char)
    requires c != sep
    ensures Split([c] + t, sep) == [[c] + Split(t, sep)[0]] + Split(t, sep)[1..]
  {
    assert ([c] + t)[1..] == t;
  }

  /** A string made only of separators yields no tokens. */
  lemma {:induction false} TokensOfSeparators(s: string, sep: char)
    requires forall i :: 0 <= i < |s| ==> s[i] == sep
    ensures Tokens(s, sep) == []
    decreases |s|
  {
    if |s| > 0 {
      TokensOfSeparators(s[1..], sep);
      assert Split(s, sep) == [""] + Split(s[1..], sep);
      assert (["" ] + Split(s[1..], sep))[1..] == Split(s[1..], sep);
    }
  }

  /** A non-empty string without the separator is one token, whatever other characters it holds. */
  lemma SingleToken(s: string, sep: char)
    requires s != [] && sep !in s
    ensures Tokens(s, sep) == [s]
  {
    SplitJoin([s], sep);
  }

  /** Removing empty pieces works piecewise: with the one-piece case, this pins it down. */
  lemma {:induction false} RemoveEmptyAppend(a: seq<string>, b: seq<string>)
    ensures RemoveEmpty(a + b) == RemoveEmpty(a) + RemoveEmpty(b)
  {
    if |a| > 0 {
      RemoveEmptyAppend(a[1..], b);
      assert (a + b)[1..] == a[1..] + b;
      assert (a + b)[0] == a[0];
    } else {
      assert a + b == b;
    }
  }

  /**
   * Tokenising a join of separator-free pieces gives the non-empty pieces in order, whether
   * separators were doubled, leading or trailing.
   */
  lemma TokensOfJoinAll(parts: seq<string>, sep: char)
    requires forall i :: 0 <= i < |parts| ==> sep !in parts[i]
    ensures Tokens(Join(sep, parts), sep) == RemoveEmpty(parts)
  {
    if |parts| == 0 {
      assert Split("", sep) == [""];
    } else {
      SplitJoin(parts, sep);
    }
  }

  /** Doubled, leading and trailing spaces, on one text. */
  lemma TokensExample()
    ensures Tokens(" read  write ", ' ') == ["read", "write"]
  {
    var parts := ["", "read", "", "write", ""];
    JoinExample();
    forall i | 0 <= i < |parts|
      ensures ' ' !in parts[i]
    {
      assert parts[i] == "" || parts[i] == "read" || parts[i] == "write";
    }
    TokensOfJoinAll(parts, ' ');
    RemoveEmptyExample();
  }

  lemma JoinExample()
    ensures Join(' ', ["", "read", "", "write", ""]) == " read  write "
  {
    var p4, p3, p2, p1 := [""], ["write", ""], ["", "write", ""], ["read", "", "write", ""];
    JoinCons("write", p4);
    JoinCons("", p3);
    JoinCons("read", p2);
    JoinCons("", p1);
    assert ["write"] + p4 == p3 && [""] + p3 == p2 && ["read"] + p2 == p1;
    assert "" + " " + ("read" + " " + ("" + " " + ("write" + " " + ""))) == " read  write ";
  }

  lemma RemoveEmptyExample()
    ensures RemoveEmpty(["", "read", "", "write", ""]) == ["read", "write"]
  {
    var parts := ["", "read", "", "write", ""];
    assert parts == [""] + ["read"] + ([""] + ["write"] + [""]);
    RemoveEmptyAppend([""] + ["read"], [""] + ["write"] + [""]);
    RemoveEmptyAppend([""], ["read"]);
    RemoveEmptyAppend([""] + ["write"], [""]);
    RemoveEmptyAppend([""], ["write"]);
  }

  lemma JoinCons(p: string, rest: seq<string>)
    requires |rest| >= 1
    ensures Join(' ', [p] + rest) == p + " " + Join(' ', rest)
  {
    assert ([p] + rest)[1..] == rest;
  }

  /** Non-empty, separator-free pieces survive a join followed by a split with empty pieces removed. */
  lemma TokensOfJoin(parts: seq<string>, sep: char)
    requires forall i :: 0 <= i < |parts| ==> parts[i] != "" && sep !in parts[i]
    ensures Tokens(Join(sep, parts), sep) == parts
  {
    if |parts| == 0 {
      assert Split("", sep) == [""];
    } else {
      SplitJoin(parts, sep);
    }
  }
}
