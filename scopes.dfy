/**
 * `VimeoScopeCollection`: an ordered list of OAuth scopes that grows in place, with
 * copies of its contents, a space-separated string form and a parser for that form.
 */
module Scopes {
  import opened Wrappers
  import opened Text

  /** `VimeoScope`. Scopes the registry does not know carry no name and no description. */
  datatype Scope = Scope(alias: Option<string>, name: Option<string>, description: Option<string>)

  /** `new VimeoScope(alias, null, null)`, built for a token the registry does not know. */
  function Placeholder(token: string): (r: Scope)
    ensures r.alias == Some(token) && r.name.None? && r.description.None?
  {
    Scope(Some(token), None, None)
  }

  /**
   * `registry.FirstOrDefault(x => x.Alias == token) ?? Placeholder(token)`: the first
   * registered scope with that alias, or else a placeholder; either way its alias is the token.
   */
  function Resolve(token: string, registry: seq<Scope>): (r: Scope)
    ensures r.alias == Some(token)
    ensures (forall i :: 0 <= i < |registry| ==> registry[i].alias != Some(token)) ==> r == Placeholder(token)
    ensures (exists i :: 0 <= i < |registry| && registry[i].alias == Some(token)) ==>
      exists i :: 0 <= i < |registry| && registry[i] == r
        && forall j :: 0 <= j < i ==> registry[j].alias != Some(token)
  {
    if |registry| == 0 then Placeholder(token)
    else if registry[0].alias == Some(token) then registry[0]
    else
      var r := Resolve(token, registry[1..]);
      assert forall i :: 1 <= i < |registry| ==> registry[i] == registry[1..][i - 1];
      r
  }

  /** `(str ?? "").Split(new[] { ' ' }, StringSplitOptions.RemoveEmptyEntries)`. */
  function ScopeTokens(str: Option<string>): seq<string> {
    Tokens(str.GetOr(""), ' ')
  }

  /**
   * `VimeoScopeCollection.Parse`: one scope per non-empty space-separated token, in order,
   * each carrying its token as alias, taken from the registry when it is known there.
   */
  function ParseScopes(str: Option<string>, registry: seq<Scope>): (r: seq<Scope>)
    ensures |r| == |ScopeTokens(str)|
    ensures forall i :: 0 <= i < |r| ==> r[i].alias == Some(ScopeTokens(str)[i])
    ensures forall i :: 0 <= i < |r| ==> r[i] in registry || r[i] == Placeholder(ScopeTokens(str)[i])
    ensures forall i :: 0 <= i < |r| ==> r[i] == Resolve(ScopeTokens(str)[i], registry)
  {
    var tokens := ScopeTokens(str);
    seq(|tokens|, i requires 0 <= i < |tokens| => Resolve(tokens[i], registry))
  }

  /** `ToStringArray()`: each scope's name, nulls included. */
  function Names(list: seq<Scope>): (r: seq<Option<string>>)
    ensures |r| == |list| && forall i :: 0 <= i < |list| ==> r[i] == list[i].name
  {
    seq(|list|, i requires 0 <= i < |list| => list[i].name)
  }

  /** `String.Join(" ", names)`, which writes a null name as the empty string. */
  function JoinedNames(list: seq<Scope>): (s: string)
    ensures list == [] ==> s == ""
    ensures |list| == 1 ==> s == list[0].name.GetOr("")
  {
    Join(' ', seq(|list|, i requires 0 <= i < |list| => list[i].name.GetOr("")))
  }

  /** Every name present, non-empty and free of spaces: the names survive the string form. */
  predicate PlainNames(list: seq<Scope>) {
    forall i :: 0 <= i < |list| ==> list[i].name.Some? && list[i].name.value != "" && ' ' !in list[i].name.value
  }

  /** Splitting the string form on spaces, without empty entries, gives back `ToStringArray()`. */
  lemma ToStringTokens(list: seq<Scope>)
    ensures PlainNames(list) ==> |ScopeTokens(Some(JoinedNames(list)))| == |list|
    ensures PlainNames(list) ==>
      forall i :: 0 <= i < |list| ==> Some(ScopeTokens(Some(JoinedNames(list)))[i]) == Names(list)[i]
  {
    if PlainNames(list) {
      var names := seq(|list|, i requires 0 <= i < |list| => list[i].name.GetOr(""));
      TokensOfJoin(names, ' ');
    }
  }

  /** Parsing the string form yields, in order, one scope per scope whose alias is that scope's name. */
  lemma ParseToStringAliases(list: seq<Scope>, registry: seq<Scope>)
    requires PlainNames(list)
    ensures var parsed := ParseScopes(Some(JoinedNames(list)), registry);
      |parsed| == |list| && forall i :: 0 <= i < |list| ==> parsed[i].alias == list[i].name
  {
    ToStringTokens(list);
  }

  /**
   * Parsing a text made of space-free pieces joined by spaces resolves exactly its non-empty
   * pieces, in order: doubled, leading and trailing spaces add no scope.
   */
  lemma ParseJoined(parts: seq<string>, registry: seq<Scope>)
    requires forall i :: 0 <= i < |parts| ==> ' ' !in parts[i]
    ensures var parsed := ParseScopes(Some(Join(' ', parts)), registry);
      |parsed| == |RemoveEmpty(parts)|
      && forall i :: 0 <= i < |parsed| ==> parsed[i] == Resolve(RemoveEmpty(parts)[i], registry)
  {
    TokensOfJoinAll(parts, ' ');
  }

  /** `Parse(" read  write ")` gives the two scopes `read` and `write`, in that order. */
  lemma ParseSpacedExample(registry: seq<Scope>)
    ensures var parsed := ParseScopes(Some(" read  write "), registry);
      |parsed| == 2 && parsed[0].alias == Some("read") && parsed[1].alias == Some("write")
  {
    TokensExample();
  }

  /** No two registered scopes share an alias. */
  predicate DistinctAliases(registry: seq<Scope>) {
    forall i, j :: 0 <= i < j < |registry| ==> registry[i].alias != registry[j].alias
  }

  /**
   * With a registry whose aliases are distinct, a collection of registered scopes whose
   * names equal their aliases is rebuilt exactly by parsing its own string form.
   */
  lemma ParseToStringRegistered(list: seq<Scope>, registry: seq<Scope>)
    requires PlainNames(list) && DistinctAliases(registry)
    requires forall i :: 0 <= i < |list| ==> list[i] in registry && list[i].alias == list[i].name
    ensures ParseScopes(Some(JoinedNames(list)), registry) == list
  {
    ToStringTokens(list);
    var parsed := ParseScopes(Some(JoinedNames(list)), registry);
    forall i | 0 <= i < |list| ensures parsed[i] == list[i] {
      var token := ScopeTokens(Some(JoinedNames(list)))[i];
      var k :| 0 <= k < |registry| && registry[k] == list[i];
      assert registry[k].alias == Some(token);
      var r := Resolve(token, registry);
      var j :| 0 <= j < |registry| && registry[j] == r && forall m :: 0 <= m < j ==> registry[m].alias != Some(token);
      assert r.alias == Some(token);
      assert !(j < k) && !(k < j);
    }
  }

  /** `Parse(null)` and `Parse` of a string of spaces give an empty collection. */
  lemma ParseNullOrBlank(str: Option<string>, registry: seq<Scope>)
    requires str.Some? ==> forall i :: 0 <= i < |str.value| ==> str.value[i] == ' '
    ensures ParseScopes(str, registry) == []
  {
    TokensOfSeparators(str.GetOr(""), ' ');
  }

  /** Only the space separates tokens: a token with tabs or other white space stays whole. */
  lemma ParseSingleToken(token: string, registry: seq<Scope>)
    requires token != "" && ' ' !in token
    ensures |ParseScopes(Some(token), registry)| == 1
    ensures ParseScopes(Some(token), registry)[0].alias == Some(token)
  {
    SingleToken(token, ' ');
  }

  class ScopeCollection {
    /** The private `_list`. */
    var list: seq<Scope>

    /**
     * `new VimeoScopeCollection(array)` and `new VimeoScopeCollection(collection)`: both add
     * every given scope, in order and duplicates included, to an empty list.
     */
    constructor (scopes: seq<Scope>)
      ensures list == scopes
    {
      list := scopes;
    }

    /** The implicit conversion from a single scope. */
    static method FromScope(scope: Scope) returns (c: ScopeCollection)
      ensures fresh(c) && c.list == [scope]
    {
      c := new ScopeCollection([scope]);
    }

    /** The implicit conversion from an array: a null array gives an empty collection. */
    static method FromArray(scopes: Option<seq<Scope>>) returns (c: ScopeCollection)
      ensures fresh(c)
      ensures scopes.None? ==> c.list == []
      ensures scopes.Some? ==> c.list == scopes.value
    {
      c := new ScopeCollection(scopes.GetOr([]));
    }

    /** Appends `scope`; what was there stays, in place and in order. */
    method Add(scope: Scope)
      modifies this
      ensures list == old(list) + [scope]
      ensures |list| == |old(list)| + 1 && list[..|old(list)|] == old(list)
    {
      list := list + [scope];
    }

    /** `collection + scope`: adds to the left operand and returns that same object, not a copy. */
    static method Plus(collection: ScopeCollection, scope: Scope) returns (r: ScopeCollection)
      modifies collection
      ensures r == collection
      ensures collection.list == old(collection.list) + [scope]
    {
      collection.Add(scope);
      r := collection;
    }

    /** `ToArray()`: a new array with the scopes in insertion order. */
    method ToArray() returns (a: array<Scope>)
      ensures fresh(a) && a[..] == list
    {
      var s := list;
      a := new Scope[|s|](i requires 0 <= i < |s| => s[i]);
    }

    /** The `Items` property: the same copy as `ToArray()`. */
    method Items() returns (a: array<Scope>)
      ensures fresh(a) && a[..] == list
    {
      a := ToArray();
    }

    /** `ToStringArray()`: a new array holding each scope's name, in insertion order. */
    method ToStringArray() returns (a: array<Option<string>>)
      ensures fresh(a) && a.Length == |list|
      ensures forall i :: 0 <= i < |list| ==> a[i] == list[i].name
    {
      var names := Names(list);
      a := new Option<string>[|names|](i requires 0 <= i < |names| => names[i]);
    }

    /** `ToString()`: the names joined by single spaces; the empty collection gives `""`. */
    function ToString(): (s: string)
      reads this
      ensures s == JoinedNames(list)
      ensures list == [] ==> s == ""
      ensures PlainNames(list) ==> |ScopeTokens(Some(s))| == |list|
      ensures PlainNames(list) ==> forall i :: 0 <= i < |list| ==> Some(ScopeTokens(Some(s))[i]) == Names(list)[i]
    {
      ToStringTokens(list);
      JoinedNames(list)
    }

    /** `VimeoScopeCollection.Parse(str)` against the registry `VimeoScope.All`. */
    static method Parse(str: Option<string>, registry: seq<Scope>) returns (c: ScopeCollection)
      ensures fresh(c) && c.list == ParseScopes(str, registry)
    {
      c := new ScopeCollection(ParseScopes(str, registry));
    }
  }
}
