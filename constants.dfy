/**
 * The lookup helpers of the constants store (src/stores/constants.js):
 * loan categories, category colours and icons, the brand icon and colour
 * matcher, and the list of selectable years.
 *
 * The store's tables are plain JavaScript objects. A table is modelled as its
 * entries in insertion order (the order `Object.entries` yields them), and a
 * property read `table[key]` as `PropertyGet`, which also sees the members
 * every object inherits from `Object.prototype`.
 */
module Constants {
  import opened Wrappers
  import opened JsStrings

  type Table = seq<(string, string)>

  const LoanCategories: seq<string> := ["MORTGAGE", "AUTO_LOAN", "GENERIC_LOAN"]

  const MiscellaneousColor := "#9e9e9e"
  const DefaultCategoryIcon := "receipt"

  const CategoryColors: Table := [
    ("HOUSING", "#9c27b0"), ("MORTGAGE", "#9c27b0"), ("RENT", "#9c27b0"),
    ("FOOD & DINING", "#4caf50"), ("FOOD & DRINKS", "#4caf50"), ("GROCERY", "#4caf50"),
    ("DINING", "#4caf50"), ("TRANSPORTATION", "#2196f3"), ("ENTERTAINMENT", "#f44336"),
    ("SHOPPING", "#ff9800"), ("UTILITIES", "#00bcd4"), ("UTILITY", "#00bcd4"),
    ("HEALTHCARE", "#e91e63"), ("EDUCATION", "#3f51b5"), ("SAVINGS", "#4caf50"),
    ("SUBSCRIPTION", "#e91e63"), ("INSURANCE", "#ff9800"), ("AUTO_LOAN", "#607d8b"),
    ("GENERIC_LOAN", "#607d8b"), ("CREDIT_CARD", "#9c27b0"), ("PHONE", "#00bcd4"),
    ("PRIMARY_INCOME", "#2e7d32"), ("SECONDARY_INCOME", "#4caf50"), ("MISC", "#9e9e9e"),
    ("MISCELLANEOUS", "#9e9e9e")
  ]

  const CategoryIcons: Table := [
    ("HOUSING", "home"), ("MORTGAGE", "home"), ("RENT", "home"),
    ("FOOD & DINING", "restaurant"), ("FOOD & DRINKS", "restaurant"), ("GROCERY", "shopping_cart"),
    ("DINING", "restaurant"), ("TRANSPORTATION", "directions_car"), ("ENTERTAINMENT", "movie"),
    ("SHOPPING", "shopping_bag"), ("UTILITIES", "bolt"), ("UTILITY", "bolt"),
    ("HEALTHCARE", "local_hospital"), ("EDUCATION", "school"), ("SAVINGS", "savings"),
    ("SUBSCRIPTION", "subscriptions"), ("INSURANCE", "shield"), ("AUTO_LOAN", "directions_car"),
    ("GENERIC_LOAN", "account_balance"), ("CREDIT_CARD", "credit_card"), ("PHONE", "phone"),
    ("PRIMARY_INCOME", "attach_money"), ("SECONDARY_INCOME", "attach_money"), ("MISC", "category"),
    ("MISCELLANEOUS", "category")
  ]

  const BrandIconMap: Table := [
    ("spotify", "Spotify.png"), ("hulu", "Hulu.jpeg"), ("experian", "Experian.png"),
    ("expirian", "Experian.png"), ("water", "water.svg"), ("water bill", "water.svg"),
    ("utility", "Utility.png"), ("utilities", "Utility.png"), ("west knox utility", "Utility.png"),
    ("internet", "Utility.png"), ("kub", "Utility.png")
  ]

  const CategoryIconMap: Table := [
    ("PRIMARY_INCOME", "paycheck.svg"), ("SECONDARY_INCOME", "paycheck.svg"),
    ("SUBSCRIPTION", "subscription.svg"), ("UTILITY", "Utility.png"), ("UTILITIES", "Utility.png"),
    ("PHONE", "Phone.jpg"), ("CREDIT_CARD", "CreditCard.png"), ("MORTGAGE", "WhiteHouse.png")
  ]

  const BrandColors: Table := [("hulu", "#1A2B2C")]

  /** The members a plain object inherits from `Object.prototype`. */
  const ObjectPrototypeKeys: set<string> := {
    "constructor", "__defineGetter__", "__defineSetter__", "hasOwnProperty",
    "__lookupGetter__", "__lookupSetter__", "isPrototypeOf", "propertyIsEnumerable",
    "toString", "valueOf", "__proto__", "toLocaleString"
  }

  /** What a property read yields: a string of the table, or an inherited (truthy) member. */
  datatype JsValue = Str(s: string) | Inherited(name: string)

  /** The table's own value for `key` (the first entry with that key). */
  function OwnValue(t: Table, key: string): (r: Option<string>)
    ensures r.None? <==> forall i :: 0 <= i < |t| ==> t[i].0 != key
    ensures r.Some? ==> exists i :: 0 <= i < |t| && t[i] == (key, r.value)
  {
    if t == [] then None
    else if t[0].0 == key then Some(t[0].1)
    else
      var r := OwnValue(t[1..], key);
      assert forall i :: 1 <= i < |t| ==> t[i] == t[1..][i - 1];
      r
  }

  /** `t[key]` on a plain object: its own value, else an `Object.prototype` member, else `undefined`. */
  function PropertyGet(t: Table, key: string): Option<JsValue>
  {
    match OwnValue(t, key)
    case Some(v) => Some(Str(v))
    case None => if key in ObjectPrototypeKeys then Some(Inherited(key)) else None
  }

  predicate Truthy(v: Option<JsValue>)
  {
    v.Some? && (v.value.Str? ==> v.value.s != "")
  }

  /** A key `Object.prototype` lacks reads only the table's own entries. */
  lemma PropertyGetOwn(t: Table, key: string)
    requires key !in ObjectPrototypeKeys
    ensures PropertyGet(t, key) == if OwnValue(t, key).Some? then Some(Str(OwnValue(t, key).value)) else None
    ensures Truthy(PropertyGet(t, key)) <==> TruthyString(OwnValue(t, key))
  {
  }

  // ---------------------------------------------------------------------
  // Category helpers

  /** `isLoanCategory(category)`. */
  predicate IsLoanCategory(category: string)
  {
    category in LoanCategories
  }

  lemma IsLoanCategoryExactly(category: string)
    ensures IsLoanCategory(category) <==>
      category == "MORTGAGE" || category == "AUTO_LOAN" || category == "GENERIC_LOAN"
  {
  }

  /** Every member of `Object.prototype` has a lower-case letter in its name. */
  lemma InheritedNamesHaveLowerCase(k: string)
    requires k in ObjectPrototypeKeys
    ensures exists i :: 0 <= i < |k| && 'a' <= k[i] <= 'z'
  {
    if k[0] == '_' {
      assert 'a' <= k[2] <= 'z';
    } else {
      assert 'a' <= k[0] <= 'z';
    }
  }

  /**
   * `t[category.toUpperCase()]` read as a string. An upper-cased key never
   * reaches an inherited member, so the property read yields exactly this.
   */
  function UpperCaseValue(t: Table, category: string): (r: Option<string>)
    ensures PropertyGet(t, ToUpper(category)) == if r.Some? then Some(Str(r.value)) else None
  {
    var key := ToUpper(category);
    if key in ObjectPrototypeKeys then
      InheritedNamesHaveLowerCase(key);
      OwnValue(t, key)
    else OwnValue(t, key)
  }

  /** `getCategoryColor(category)`: the colour of the upper-cased category, else the MISCELLANEOUS colour. */
  function GetCategoryColor(category: Option<string>): (color: string)
    ensures category.None? ==> color == MiscellaneousColor
    ensures category.Some? && TruthyString(UpperCaseValue(CategoryColors, category.value))
      ==> color == UpperCaseValue(CategoryColors, category.value).value
    ensures category.Some? && !TruthyString(UpperCaseValue(CategoryColors, category.value))
      ==> color == MiscellaneousColor
  {
    match category
    case None => MiscellaneousColor
    case Some(c) =>
      var v := UpperCaseValue(CategoryColors, c);
      if TruthyString(v) then v.value else MiscellaneousColor
  }

  /** `getCategoryIcon(category)`: the icon of the upper-cased category, else `receipt`. */
  function GetCategoryIcon(category: Option<string>): (icon: string)
    ensures category.None? ==> icon == DefaultCategoryIcon
    ensures category.Some? && TruthyString(UpperCaseValue(CategoryIcons, category.value))
      ==> icon == UpperCaseValue(CategoryIcons, category.value).value
    ensures category.Some? && !TruthyString(UpperCaseValue(CategoryIcons, category.value))
      ==> icon == DefaultCategoryIcon
  {
    match category
    case None => DefaultCategoryIcon
    case Some(c) =>
      var v := UpperCaseValue(CategoryIcons, c);
      if TruthyString(v) then v.value else DefaultCategoryIcon
  }

  lemma UpperOfLower(s: string)
    ensures ToUpper(ToLower(s)) == ToUpper(s)
  {
  }

  /** The category lookups ignore the case of ASCII letters. */
  lemma CategoryLookupsIgnoreCase(c: string)
    ensures GetCategoryColor(Some(ToLower(c))) == GetCategoryColor(Some(c))
    ensures GetCategoryIcon(Some(ToLower(c))) == GetCategoryIcon(Some(c))
  {
    UpperOfLower(c);
  }

  /** Every colour the table holds is a colour `getCategoryColor` can return, and nothing else is. */
  lemma GetCategoryColorInTable(category: Option<string>)
    ensures GetCategoryColor(category) == MiscellaneousColor
      || exists i :: 0 <= i < |CategoryColors| && CategoryColors[i].1 == GetCategoryColor(category)
  {
  }

  /** `getBrandIconByCategory(category)`: null for a missing or empty category. */
  function GetBrandIconByCategory(category: Option<string>): (icon: Option<string>)
    ensures category.None? || category.value == "" ==> icon.None?
    ensures icon.Some? ==> icon.value != "" && category.Some?
    ensures icon.Some? ==>
      exists i :: 0 <= i < |CategoryIconMap| && CategoryIconMap[i] == (ToUpper(category.value), icon.value)
    ensures category.Some? && category.value != "" ==>
      (icon.None? <==> forall i :: 0 <= i < |CategoryIconMap| ==> CategoryIconMap[i].0 != ToUpper(category.value))
  {
    if category.None? || category.value == "" then None
    else
      var v := UpperCaseValue(CategoryIconMap, category.value);
      assert ValuesNonEmpty(CategoryIconMap);
      if TruthyString(v) then v else None
  }

  /** No two entries of the table share a key. */
  predicate KeysDistinct(t: Table)
  {
    forall i, j :: 0 <= i < j < |t| ==> t[i].0 != t[j].0
  }

  /** In a table without repeated keys, every entry is what its key reads. */
  lemma {:induction false} OwnValueAt(t: Table, i: int)
    requires KeysDistinct(t) && 0 <= i < |t|
    ensures OwnValue(t, t[i].0) == Some(t[i].1)
  {
    if i > 0 {
      assert t[1..][i - 1] == t[i];
      assert KeysDistinct(t[1..]) by {
        forall a, b | 0 <= a < b < |t[1..]| ensures t[1..][a].0 != t[1..][b].0 {
          assert t[1..][a] == t[a + 1] && t[1..][b] == t[b + 1];
        }
      }
      OwnValueAt(t[1..], i - 1);
    }
  }

  /** A category naming an entry of the category icon map, in any ASCII case, gets that entry's icon. */
  lemma GetBrandIconByCategoryAt(c: string, i: int)
    requires c != "" && 0 <= i < |CategoryIconMap| && CategoryIconMap[i].0 == ToUpper(c)
    ensures GetBrandIconByCategory(Some(c)) == Some(CategoryIconMap[i].1)
  {
    assert KeysDistinct(CategoryIconMap);
    OwnValueAt(CategoryIconMap, i);
  }

  // ---------------------------------------------------------------------
  // Brand matching

  /** Kept by `replace(/[^a-z0-9\s]/g, '')`. */
  predicate IsNameChar(c: char)
  {
    'a' <= c <= 'z' || '0' <= c <= '9' || IsJsSpace(c)
  }

  function StripSpecial(s: string): (r: string)
    ensures |r| <= |s|
    ensures forall i :: 0 <= i < |r| ==> IsNameChar(r[i])
  {
    if s == [] then [] else (if IsNameChar(s[0]) then [s[0]] else []) + StripSpecial(s[1..])
  }

  /** One character is kept exactly when it is a name character. */
  lemma StripSpecialChar(c: char)
    ensures StripSpecial([c]) == if IsNameChar(c) then [c] else []
  {
    assert [c][1..] == [];
  }

  /** The filter works character by character: it distributes over concatenation, keeping the order. */
  lemma {:induction false} StripSpecialAppend(a: string, b: string)
    ensures StripSpecial(a + b) == StripSpecial(a) + StripSpecial(b)
  {
    if a == [] {
      assert a + b == b;
    } else {
      assert (a + b)[0] == a[0];
      assert (a + b)[1..] == a[1..] + b;
      StripSpecialAppend(a[1..], b);
    }
  }

  /** Lower-case, trim, then drop every character other than `a-z`, `0-9` and white space. */
  function NormalizeName(name: string): string
  {
    StripSpecial(Trim(ToLower(name)))
  }

  /** `s.split(/\s+/)[0]`: the characters before the first white space. */
  function FirstWord(s: string): (w: string)
    ensures |w| <= |s| && w == s[..|w|]
    ensures forall i :: 0 <= i < |w| ==> !IsJsSpace(w[i])
    ensures |w| < |s| ==> IsJsSpace(s[|w|])
  {
    if s == [] || IsJsSpace(s[0]) then [] else [s[0]] + FirstWord(s[1..])
  }

  /** The first word runs up to the first white-space character. */
  lemma FirstWordUpToSpace(s: string, k: int)
    requires 0 <= k < |s| && IsJsSpace(s[k])
    requires forall i :: 0 <= i < k ==> !IsJsSpace(s[i])
    ensures FirstWord(s) == s[..k]
  {
  }

  /** The partial-match condition: either string contains the other. */
  predicate PartialMatch(name: string, key: string)
  {
    Includes(name, key) || Includes(key, name)
  }

  /** The value of the first entry, in insertion order, whose key partially matches `name`. */
  function FirstPartialMatch(t: Table, name: string): (r: Option<string>)
    ensures r.None? <==> forall i :: 0 <= i < |t| ==> !PartialMatch(name, t[i].0)
    ensures r.Some? ==>
      exists i :: (0 <= i < |t| && PartialMatch(name, t[i].0) && r.value == t[i].1
        && forall j :: 0 <= j < i ==> !PartialMatch(name, t[j].0))
  {
    if t == [] then None
    else if PartialMatch(name, t[0].0) then Some(t[0].1)
    else
      var r := FirstPartialMatch(t[1..], name);
      assert forall i :: 1 <= i < |t| ==> t[i] == t[1..][i - 1];
      r
  }

  /**
   * The brand matcher of `getBrandIcon` and `getBrandColor` with the two
   * corrections listed in the README: a name that normalises to nothing
   * matches nothing, and only the table's own entries are read.
   */
  function BrandLookup(t: Table, name: Option<string>): (r: Option<string>)
    ensures name.None? || name.value == "" || NormalizeName(name.value) == "" ==> r.None?
    ensures r.Some? ==> r.value != ""
  {
    if name.None? || name.value == "" then None
    else
      var norm := NormalizeName(name.value);
      if norm == "" then None
      else
        var exact := OwnValue(t, norm);
        if TruthyString(exact) then exact
        else
          var partial := FirstPartialMatch(t, norm);
          if TruthyString(partial) then partial
          else
            var byWord := OwnValue(t, FirstWord(norm));
            if TruthyString(byWord) then byWord else None
  }

  /** The matcher as the source writes it: a falsy result is `None` (null). */
  function BrandLookupAsWritten(t: Table, name: Option<string>): (r: Option<JsValue>)
    ensures name.None? || name.value == "" ==> r.None?
    ensures r.Some? ==> Truthy(r)
  {
    if name.None? || name.value == "" then None
    else
      var norm := NormalizeName(name.value);
      var exact := PropertyGet(t, norm);
      if Truthy(exact) then exact
      else
        var partial := FirstPartialMatch(t, norm);
        if TruthyString(partial) then Some(Str(partial.value))
        else
          var byWord := PropertyGet(t, FirstWord(norm));
          if Truthy(byWord) then byWord else None
  }

  /**
   * `getBrandIcon(name)` / `getBrandColor(name)` over table `t`: the exact
   * entry, else the first partial match in insertion order (a `for...of`
   * loop with `break`), else the entry for the first word, else null.
   */
  method FindBrandValue(t: Table, name: Option<string>) returns (r: Option<string>)
    ensures r == BrandLookup(t, name)
  {
    if name.None? || name.value == "" {
      return None;
    }
    var norm := NormalizeName(name.value);
    if norm == "" {
      return None;
    }
    r := OwnValue(t, norm);
    if !TruthyString(r) {
      r := ScanPartialMatch(t, norm);
    }
    if !TruthyString(r) {
      r := OwnValue(t, FirstWord(norm));
      if !TruthyString(r) {
        r := None;
      }
    }
  }

  /** The `for...of` loop of the partial stage: the first entry whose key partially matches, then `break`. */
  method ScanPartialMatch(t: Table, norm: string) returns (r: Option<string>)
    ensures r == FirstPartialMatch(t, norm)
  {
    var i := 0;
    while i < |t|
      invariant 0 <= i <= |t|
      invariant FirstPartialMatch(t[i..], norm) == FirstPartialMatch(t, norm)
    {
      assert t[i..][0] == t[i];
      if Includes(norm, t[i].0) || Includes(t[i].0, norm) {
        return Some(t[i].1);
      }
      assert t[i..][1..] == t[i + 1..];
      i := i + 1;
    }
    assert t[i..] == [];
    return None;
  }

  method GetBrandIcon(name: Option<string>) returns (icon: Option<string>)
    ensures icon == BrandLookup(BrandIconMap, name)
  {
    icon := FindBrandValue(BrandIconMap, name);
  }

  method GetBrandColor(name: Option<string>) returns (color: Option<string>)
    ensures color == BrandLookup(BrandColors, name)
  {
    color := FindBrandValue(BrandColors, name);
  }

  /** `hasBrandIcon(name, category)`. */
  predicate HasBrandIcon(name: Option<string>, category: Option<string>)
  {
    BrandLookup(BrandIconMap, name).Some? || GetBrandIconByCategory(category).Some?
  }

  /** `hasBrandIcon(name, category)` over the source's matcher. */
  predicate HasBrandIconAsWritten(name: Option<string>, category: Option<string>)
  {
    BrandLookupAsWritten(BrandIconMap, name).Some? || GetBrandIconByCategory(category).Some?
  }

  /** Away from the two inputs of "## Findings", `hasBrandIcon` as written and corrected agree. */
  lemma HasBrandIconAsWrittenAgrees(name: string, category: Option<string>)
    requires NormalizeName(name) != ""
    requires NormalizeName(name) !in ObjectPrototypeKeys
    requires FirstWord(NormalizeName(name)) !in ObjectPrototypeKeys
    ensures HasBrandIconAsWritten(Some(name), category) <==> HasBrandIcon(Some(name), category)
  {
    AsWrittenAgreesOtherwise(BrandIconMap, name);
  }

  predicate ValuesNonEmpty(t: Table)
  {
    forall i :: 0 <= i < |t| ==> t[i].1 != ""
  }

  /** A brand icon exists when the name matches a brand, or the upper-cased category is a key of the category icon map. */
  lemma HasBrandIconCases(name: Option<string>, category: Option<string>)
    ensures HasBrandIcon(name, category) <==>
      BrandLookup(BrandIconMap, name).Some?
      || (category.Some? && category.value != ""
          && exists i :: 0 <= i < |CategoryIconMap| && CategoryIconMap[i].0 == ToUpper(category.value))
  {
  }

  lemma BrandTablesValuesNonEmpty()
    ensures ValuesNonEmpty(BrandIconMap) && ValuesNonEmpty(BrandColors)
  {
  }

  /** The first word is a prefix of the name, so the name includes it. */
  lemma {:induction false} NameIncludesFirstWord(s: string)
    ensures Includes(s, FirstWord(s))
  {
    assert StartsWith(s, FirstWord(s));
  }

  /**
   * Over a table whose values are all non-empty, the first-word stage never
   * finds what the partial stage missed: the name includes its own first word.
   */
  lemma FirstWordStageAddsNothing(t: Table, norm: string)
    requires ValuesNonEmpty(t)
    requires FirstPartialMatch(t, norm).None?
    ensures OwnValue(t, FirstWord(norm)).None?
  {
  }

  /** So every brand found is found by the exact or the partial stage. */
  lemma BrandLookupTwoStages(t: Table, name: string)
    requires ValuesNonEmpty(t)
    ensures var norm := NormalizeName(name);
      BrandLookup(t, Some(name)).Some? ==>
        BrandLookup(t, Some(name)) == OwnValue(t, norm)
        || BrandLookup(t, Some(name)) == FirstPartialMatch(t, norm)
  {
    var norm := NormalizeName(name);
    if FirstPartialMatch(t, norm).None? {
      FirstWordStageAddsNothing(t, norm);
    }
  }

  /** What the matcher returns is always one of the table's own values. */
  lemma BrandLookupIsTableValue(t: Table, name: Option<string>)
    ensures var r := BrandLookup(t, name);
      r.Some? ==> r.value != "" && exists i :: 0 <= i < |t| && t[i].1 == r.value
  {
    if name.Some? && name.value != "" {
      var norm := NormalizeName(name.value);
      var exact, partial, byWord := OwnValue(t, norm), FirstPartialMatch(t, norm), OwnValue(t, FirstWord(norm));
      assert BrandLookup(t, name) ==
        if norm == "" then None
        else if TruthyString(exact) then exact
        else if TruthyString(partial) then partial
        else if TruthyString(byWord) then byWord
        else None;
    }
  }

  /** A name that contains a brand key, or is contained in one, gets a brand value. */
  lemma BrandLookupFindsContainedKey(t: Table, name: string, i: int)
    requires ValuesNonEmpty(t) && 0 <= i < |t|
    requires NormalizeName(name) != "" && PartialMatch(NormalizeName(name), t[i].0)
    ensures BrandLookup(t, Some(name)).Some?
  {
  }

  /** `StripSpecial` keeps a string made of name characters as it is. */
  lemma {:induction false} StripSpecialKeepsNameChars(s: string)
    requires forall i :: 0 <= i < |s| ==> IsNameChar(s[i])
    ensures StripSpecial(s) == s
  {
    if s != [] {
      StripSpecialKeepsNameChars(s[1..]);
    }
  }

  predicate AsciiLetters(name: string)
  {
    forall i :: 0 <= i < |name| ==> 'a' <= name[i] <= 'z' || 'A' <= name[i] <= 'Z'
  }

  /** A name made of ASCII letters only normalises to its lower-case form. */
  lemma NormalizeLetters(name: string)
    requires AsciiLetters(name)
    ensures NormalizeName(name) == ToLower(name)
  {
    var l := ToLower(name);
    assert forall i :: 0 <= i < |l| ==> 'a' <= l[i] <= 'z';
    assert TrimStart(l) == l;
    assert TrimEnd(l) == l;
    StripSpecialKeepsNameChars(l);
  }

  /** ASCII letters and single spaces, with no space at either end. */
  predicate AsciiWords(name: string)
  {
    (forall i :: 0 <= i < |name| ==> 'a' <= name[i] <= 'z' || 'A' <= name[i] <= 'Z' || name[i] == ' ')
    && (name != [] ==> name[0] != ' ' && name[|name| - 1] != ' ')
  }

  /** Such a name also normalises to its lower-case form: there is nothing to trim or strip. */
  lemma NormalizeWords(name: string)
    requires AsciiWords(name)
    ensures NormalizeName(name) == ToLower(name)
  {
    var l := ToLower(name);
    LowerWords(name);
    assert TrimStart(l) == l;
    assert TrimEnd(l) == l;
    StripSpecialKeepsNameChars(l);
  }

  lemma LowerWords(name: string)
    requires AsciiWords(name)
    ensures var l := ToLower(name);
      (forall i :: 0 <= i < |l| ==> IsNameChar(l[i]))
      && (l != [] ==> !IsJsSpace(l[0]) && !IsJsSpace(l[|l| - 1]))
  {
  }

  /** The source's matcher, too, answers a letters-only name whose lower-case form is a key with that key's value. */
  lemma AsWrittenExactHit(t: Table, name: string, key: string)
    requires name != "" && AsciiLetters(name) && ToLower(name) == key
    requires TruthyString(OwnValue(t, key))
    ensures BrandLookupAsWritten(t, Some(name)) == Some(Str(OwnValue(t, key).value))
  {
    NormalizeLetters(name);
    AsWrittenExactStage(t, name, key);
  }

  /** A letters-only name whose lower-case form is a key of the table gets that key's value. */
  lemma BrandLookupExactHit(t: Table, name: string, key: string)
    requires name != "" && key != "" && AsciiLetters(name) && ToLower(name) == key
    requires TruthyString(OwnValue(t, key))
    ensures BrandLookup(t, Some(name)) == OwnValue(t, key)
  {
    NormalizeLetters(name);
  }

  // ---------------------------------------------------------------------
  // The source's matcher and the two inputs on which it differs

  /** A name of special characters only normalises to "", which every key includes. */
  lemma AsWrittenEmptyNameTakesFirstEntry(t: Table, name: string)
    requires name != "" && NormalizeName(name) == ""
    requires t != [] && t[0].1 != "" && OwnValue(t, "").None?
    ensures BrandLookupAsWritten(t, Some(name)) == Some(Str(t[0].1))
    ensures BrandLookup(t, Some(name)).None?
  {
    BrandLookupEmptyNorm(t, name);
    assert "" !in ObjectPrototypeKeys;
    assert PartialMatch("", t[0].0) by {
      assert Includes(t[0].0, "");
    }
    AsWrittenNoExactHit(t, name, "");
  }

  lemma BrandLookupEmptyNorm(t: Table, name: string)
    requires NormalizeName(name) == ""
    ensures BrandLookup(t, Some(name)).None?
  {
  }

  /** When the property read of the normalised name is falsy, the partial stage decides. */
  lemma AsWrittenNoExactHit(t: Table, name: string, norm: string)
    requires name != "" && NormalizeName(name) == norm && !Truthy(PropertyGet(t, norm))
    requires TruthyString(FirstPartialMatch(t, norm))
    ensures BrandLookupAsWritten(t, Some(name)) == Some(Str(FirstPartialMatch(t, norm).value))
  {
  }

  /** A letters-only name whose lower-case form only `Object.prototype` has is answered by the inherited member. */
  lemma AsWrittenInheritedHit(t: Table, name: string, key: string)
    requires name != "" && AsciiLetters(name) && ToLower(name) == key
    requires key in ObjectPrototypeKeys && OwnValue(t, key).None?
    ensures BrandLookupAsWritten(t, Some(name)) == Some(Inherited(key))
  {
    NormalizeLetters(name);
    assert PropertyGet(t, key) == Some(Inherited(key));
    AsWrittenExactStage(t, name, key);
  }

  /**
   * When the exact and partial stages miss, a first word naming an
   * `Object.prototype` member answers with that inherited member, where the
   * corrected matcher finds nothing.
   */
  lemma AsWrittenFirstWordInheritedHit(t: Table, name: string, norm: string, w: string)
    requires name != "" && NormalizeName(name) == norm
    requires norm !in ObjectPrototypeKeys && OwnValue(t, norm).None?
    requires FirstPartialMatch(t, norm).None?
    requires FirstWord(norm) == w && w in ObjectPrototypeKeys && OwnValue(t, w).None?
    ensures BrandLookupAsWritten(t, Some(name)) == Some(Inherited(w))
    ensures BrandLookup(t, Some(name)).None?
  {
    assert PropertyGet(t, norm).None?;
    assert PropertyGet(t, w) == Some(Inherited(w));
  }

  /**
   * No key partially matches `n` when `n` has a character `c` no key has,
   * and each key has a character, at position `missing[i]`, that `n` lacks.
   */
  lemma NoPartialMatchByChars(t: Table, n: string, c: char, missing: seq<nat>)
    requires c in n && forall i :: 0 <= i < |t| ==> c !in t[i].0
    requires |missing| == |t|
    requires forall i :: 0 <= i < |t| ==> missing[i] < |t[i].0| && t[i].0[missing[i]] !in n
    ensures FirstPartialMatch(t, n).None?
  {
    forall i | 0 <= i < |t|
      ensures !PartialMatch(n, t[i].0)
    {
      NotIncludesMissingChar(n, t[i].0, t[i].0[missing[i]]);
      NotIncludesMissingChar(t[i].0, n, c);
    }
  }

  /** A truthy property read of the normalised name is the source matcher's answer. */
  lemma AsWrittenExactStage(t: Table, name: string, key: string)
    requires name != "" && NormalizeName(name) == key && Truthy(PropertyGet(t, key))
    ensures BrandLookupAsWritten(t, Some(name)) == PropertyGet(t, key)
  {
  }

  /** Away from those two cases the source's matcher and the corrected one agree. */
  lemma AsWrittenAgreesOtherwise(t: Table, name: string)
    requires NormalizeName(name) != ""
    requires NormalizeName(name) !in ObjectPrototypeKeys
    requires FirstWord(NormalizeName(name)) !in ObjectPrototypeKeys
    ensures BrandLookupAsWritten(t, Some(name))
      == if BrandLookup(t, Some(name)).Some? then Some(Str(BrandLookup(t, Some(name)).value)) else None
  {
    var norm := NormalizeName(name);
    PropertyGetOwn(t, norm);
    PropertyGetOwn(t, FirstWord(norm));
  }

  /** `getYears(startOffset, length)`: `length` consecutive years from `currentYear - startOffset`. */
  function GetYears(currentYear: int, startOffset: int := 20, length: int := 60): (years: seq<int>)
    ensures |years| == if length < 0 then 0 else length
    ensures forall i :: 0 <= i < |years| ==> years[i] == currentYear - startOffset + i
  {
    seq(if length < 0 then 0 else length, i => currentYear - startOffset + i)
  }

  /** With the default arguments: sixty years, the first twenty years before the current one. */
  lemma GetYearsDefaults(currentYear: int)
    ensures |GetYears(currentYear)| == 60
    ensures GetYears(currentYear)[0] == currentYear - 20
    ensures GetYears(currentYear)[59] == currentYear + 39
    ensures currentYear in GetYears(currentYear)
  {
    assert GetYears(currentYear)[20] == currentYear;
  }
}
