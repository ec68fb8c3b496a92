/**
 * The customer list of frontend/src/posapp/stores/customersStore.js: how
 * the search term and the POS profile are normalised, which customers a
 * search keeps, how results are paged, and how a saved customer enters
 * the list. The local customer table is an input; its storage and the
 * server synchronisation are left out.
 */
module CustomersStore {
  import opened Common
  import ItemSearch

  /** Results per page. */
  const PageSize: nat := 1000

  /** A loosely typed value the store receives. */
  datatype Value = Absent | Text(s: string) | Other

  /** `normalizeSearchTerm`: text is trimmed; anything else is empty. */
  function NormalizeSearchTerm(term: Value): (r: string)
    ensures !term.Text? ==> r == []
    ensures term.Text? ==> r == Trim(term.s)
    ensures |r| > 0 ==> !IsSpace(r[0]) && !IsSpace(r[|r| - 1])
  {
    if term.Text? then Trim(term.s) else []
  }

  /** A normalised term normalises to itself. */
  lemma NormalizeSearchTermIdempotent(term: Value)
    ensures NormalizeSearchTerm(Text(NormalizeSearchTerm(term))) == NormalizeSearchTerm(term)
  {
    TrimOfTrimmed(NormalizeSearchTerm(term));
  }

  // ---------------------------------------------------------------------
  // normalizeProfile (customersStore.js:24-54)

  /** A profile as callers pass it: nothing, text, or an object that may
      wrap the profile in its `pos_profile` field. */
  datatype Profile = NoProfile | ProfileText(s: string) | ProfileObject(id: string, posProfile: Profile)

  /** The normalised profile: null, parsed JSON, `{name}`, or the object
      itself. */
  datatype Resolved<J> = Null | Parsed(json: J) | Named(name: string) | AsObject(profile: Profile)

  /** The value the profile is read from: a wrapped profile when there is
      one. */
  function Unwrap(p: Profile): Profile
  {
    if p.ProfileObject? && p.posProfile != NoProfile && p.posProfile != ProfileText([]) then p.posProfile else p
  }

  predicate LooksLikeJson(t: string)
  {
    |t| > 0 && (t[0] == '{' || t[0] == '[')
  }

  /**
   * `normalizeProfile`: a missing or empty profile is null; a wrapped
   * profile is unwrapped; text is trimmed, blank text is null, JSON-like
   * text is parsed (null when it does not parse) and any other text is
   * the name of the profile; an object is kept.
   */
  function NormalizeProfile<J>(p: Profile, parseJson: string -> Option<J>): (r: Resolved<J>)
    ensures p == NoProfile || p == ProfileText([]) ==> r == Null
    ensures Unwrap(p).ProfileText? && p != ProfileText([]) ==>
              var t := Trim(Unwrap(p).s);
              (t == [] ==> r == Null)
              && (LooksLikeJson(t) ==> r == (if parseJson(t).Some? then Parsed(parseJson(t).value) else Null))
              && (t != [] && !LooksLikeJson(t) ==> r == Named(t))
    ensures Unwrap(p).ProfileObject? ==> r == AsObject(Unwrap(p))
    ensures r.Named? ==> r.name != [] && !IsSpace(r.name[0]) && !IsSpace(r.name[|r.name| - 1])
  {
    if p == NoProfile || p == ProfileText([]) then Null
    else
      match Unwrap(p)
      case ProfileText(s) =>
        var t := Trim(s);
        if t == [] then Null
        else if LooksLikeJson(t) then (match parseJson(t) case Some(j) => Parsed(j) case None => Null)
        else Named(t)
      case ProfileObject(_, _) => AsObject(Unwrap(p))
      case NoProfile => Null
  }

  /** A profile wrapped in an object normalises as the profile itself. */
  lemma NormalizeProfileUnwraps<J>(id: string, s: string, parseJson: string -> Option<J>)
    requires s != []
    ensures NormalizeProfile(ProfileObject(id, ProfileText(s)), parseJson) == NormalizeProfile(ProfileText(s), parseJson)
  {
    assert Unwrap(ProfileObject(id, ProfileText(s))) == ProfileText(s) == Unwrap(ProfileText(s));
  }

  /** A profile name normalises to that name. */
  lemma NormalizeProfileName<J>(t: string, parseJson: string -> Option<J>)
    requires t != [] && !IsSpace(t[0]) && !IsSpace(t[|t| - 1]) && !LooksLikeJson(t)
    ensures NormalizeProfile(ProfileText(t), parseJson) == Named(t)
  {
    TrimOfTrimmed(t);
    assert Unwrap(ProfileText(t)) == ProfileText(t);
  }

  // ---------------------------------------------------------------------
  // The search filter (customersStore.js:150-174)

  /** The searched fields of a customer: name, id, mobile, email and tax
      id; `None` for null or undefined. */
  datatype Customer = Customer(name: string, fields: seq<Option<string>>)

  /** The fields that are present, lower-cased. */
  function Searchable(fields: seq<Option<string>>): (r: seq<string>)
    ensures forall v :: v in r <==> exists f :: Some(f) in fields && v == Lower(f)
  {
    if fields == [] then []
    else
      var rest := Searchable(fields[1..]);
      assert fields == [fields[0]] + fields[1..];
      if fields[0].Some? then [Lower(fields[0].value)] + rest else rest
  }

  /** `searchParts`: the lower-cased term split at white space, empty
      parts dropped. */
  function SearchParts(term: string): seq<string>
  {
    ItemSearch.Tokens(Lower(term))
  }

  /** A customer matches iff every part occurs in one of its present
      fields; with no parts every customer matches. */
  predicate Matches(c: Customer, parts: seq<string>)
  {
    forall k :: 0 <= k < |parts| ==> Found(parts[k], c.fields)
  }

  /** The part occurs in one of the present fields. */
  predicate Found(part: string, fields: seq<Option<string>>)
  {
    exists v :: v in Searchable(fields) && IsInfix(part, v)
  }

  /** The customers a search keeps, in table order. */
  function FilterCustomers(table: seq<Customer>, term: string): (r: seq<Customer>)
    ensures term == [] ==> r == table
    ensures forall c :: c in r <==> c in table && (term == [] || Matches(c, SearchParts(term)))
  {
    if table == [] then []
    else
      var rest := FilterCustomers(table[1..], term);
      assert table == [table[0]] + table[1..];
      if term == [] || Matches(table[0], SearchParts(term)) then [table[0]] + rest else rest
  }

  /** Adding a field never loses a match. */
  lemma MatchesWithMoreFields(c: Customer, extra: Option<string>, parts: seq<string>)
    requires Matches(c, parts)
    ensures Matches(Customer(c.name, c.fields + [extra]), parts)
  {
    var more := Customer(c.name, c.fields + [extra]);
    forall k | 0 <= k < |parts| ensures Found(parts[k], more.fields) {
      assert Found(parts[k], c.fields);
      var v :| v in Searchable(c.fields) && IsInfix(parts[k], v);
      var f :| Some(f) in c.fields && v == Lower(f);
      assert Some(f) in more.fields;
      assert v in Searchable(more.fields);
    }
    assert Matches(more, parts);
  }

  /** A customer whose lower-cased field is exactly a one-word term
      matches it. */
  lemma FieldItselfMatches(c: Customer, f: string)
    requires Some(f) in c.fields
    requires SearchParts(f) == [Lower(f)]
    ensures Matches(c, SearchParts(f))
  {
    var v := Lower(f);
    assert InfixAt(v, v, 0);
    assert v in Searchable(c.fields);
    assert Found(v, c.fields);
  }

  // ---------------------------------------------------------------------
  // Paging (customersStore.js:176-191)

  datatype Page = Page(customers: seq<Customer>, page: nat, hasMore: bool)

  /** The page of `matching` the query returns: offset `page * PageSize`,
      at most `PageSize` rows. */
  function PageOf(matching: seq<Customer>, page: nat): (r: seq<Customer>)
    ensures |r| <= PageSize
    ensures page * PageSize <= |matching| ==> r == matching[page * PageSize .. Min(|matching|, page * PageSize + PageSize)]
    ensures page * PageSize > |matching| ==> r == []
  {
    var start := page * PageSize;
    if start > |matching| then [] else matching[start .. Min(|matching|, start + PageSize)]
  }

  /**
   * `performSearch`: the page's results replace the list, or are added
   * to it when appending; there is more iff the page was full, and only
   * then does the page number advance.
   */
  function PerformSearch(state: Page, matching: seq<Customer>, append: bool): (r: Page)
    ensures var results := PageOf(matching, state.page);
            r.customers == (if append then state.customers + results else results)
            && (r.hasMore <==> |results| == PageSize)
            && r.page == (if r.hasMore then state.page + 1 else state.page)
  {
    var results := PageOf(matching, state.page);
    var more := |results| == PageSize;
    Page(if append then state.customers + results else results, if more then state.page + 1 else state.page, more)
  }

  /** Appending page after page lists the matching customers in order:
      after a full page the list is the prefix up to the next page. */
  lemma AppendedPagesArePrefix(state: Page, matching: seq<Customer>)
    requires state.page * PageSize <= |matching|
    requires state.customers == matching[..state.page * PageSize]
    ensures var r := PerformSearch(state, matching, true);
            r.customers == matching[..Min(|matching|, state.page * PageSize + PageSize)]
            && (r.hasMore ==> r.customers == matching[..r.page * PageSize])
  {
    var start := state.page * PageSize;
    var end := Min(|matching|, start + PageSize);
    assert matching[..start] + matching[start..end] == matching[..end];
  }

  // ---------------------------------------------------------------------
  // addOrUpdateCustomer (customersStore.js:408-423)

  function IndexOfName(cs: seq<Customer>, name: string): (r: int)
    ensures -1 <= r < |cs|
    ensures r >= 0 ==> cs[r].name == name && forall j :: 0 <= j < r ==> cs[j].name != name
    ensures r == -1 ==> forall j :: 0 <= j < |cs| ==> cs[j].name != name
  {
    if cs == [] then -1
    else if cs[0].name == name then 0
    else
      var k := IndexOfName(cs[1..], name);
      if k == -1 then -1 else k + 1
  }

  /**
   * `addOrUpdateCustomer`: a customer without a name is ignored; one
   * whose name is listed replaces the first such entry; any other is
   * appended.
   */
  function AddOrUpdateCustomer(cs: seq<Customer>, c: Customer): (r: seq<Customer>)
    ensures c.name == [] ==> r == cs
    ensures c.name != [] ==> c in r
    ensures c.name != [] && IndexOfName(cs, c.name) >= 0 ==>
              |r| == |cs| && r[IndexOfName(cs, c.name)] == c
              && forall j :: 0 <= j < |cs| && j != IndexOfName(cs, c.name) ==> r[j] == cs[j]
    ensures c.name != [] && IndexOfName(cs, c.name) == -1 ==> r == cs + [c]
  {
    if c.name == [] then cs
    else
      var k := IndexOfName(cs, c.name);
      if k >= 0 then
        var r := cs[k := c];
        assert r[k] == c;
        r
      else
        assert (cs + [c])[|cs|] == c;
        cs + [c]
  }

  /** Saving the same customer twice leaves the list as after once. */
  lemma AddOrUpdateCustomerIdempotent(cs: seq<Customer>, c: Customer)
    ensures AddOrUpdateCustomer(AddOrUpdateCustomer(cs, c), c) == AddOrUpdateCustomer(cs, c)
  {
    if c.name != [] {
      var once := AddOrUpdateCustomer(cs, c);
      var k := IndexOfName(cs, c.name);
      if k >= 0 {
        assert IndexOfName(once, c.name) == k;
      } else {
        assert IndexOfName(once, c.name) == |cs|;
      }
    }
  }
}
