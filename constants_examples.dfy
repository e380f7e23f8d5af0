/**
 * Worked examples of the constants store's lookups on its own tables,
 * including the two names on which the source's brand matcher misbehaves.
 */
module ConstantsExamples {
  import opened Wrappers
  import opened JsStrings
  import opened Constants

  lemma CategoryColorExampleMortgage()
    ensures GetCategoryColor(Some("mortgage")) == "#9c27b0"
  {
    assert ToUpper("mortgage") == "MORTGAGE";
  }

  lemma SpotifyFacts()
    ensures AsciiLetters("Spotify") && ToLower("Spotify") == "spotify"
    ensures OwnValue(BrandIconMap, "spotify") == Some("Spotify.png")
  {
    assert ToLower("Spotify") == "spotify";
  }

  /** The source's matcher and the corrected one both find `Spotify.png`. */
  lemma BrandIconExampleSpotify()
    ensures BrandLookupAsWritten(BrandIconMap, Some("Spotify")) == Some(Str("Spotify.png"))
    ensures BrandLookup(BrandIconMap, Some("Spotify")) == Some("Spotify.png")
  {
    SpotifyFacts();
    BrandLookupExactHit(BrandIconMap, "Spotify", "spotify");
    AsWrittenExactHit(BrandIconMap, "Spotify", "spotify");
  }

  lemma HuluFacts()
    ensures AsciiLetters("hulu") && ToLower("hulu") == "hulu"
    ensures OwnValue(BrandIconMap, "hulu") == Some("Hulu.jpeg")
  {
    assert ToLower("hulu") == "hulu";
  }

  /** The source's matcher and the corrected one both find `Hulu.jpeg`. */
  lemma BrandIconExampleHulu()
    ensures BrandLookupAsWritten(BrandIconMap, Some("hulu")) == Some(Str("Hulu.jpeg"))
    ensures BrandLookup(BrandIconMap, Some("hulu")) == Some("Hulu.jpeg")
  {
    HuluFacts();
    BrandLookupExactHit(BrandIconMap, "hulu", "hulu");
    AsWrittenExactHit(BrandIconMap, "hulu", "hulu");
  }

  lemma PrimaryIncomeIcon()
    ensures GetBrandIconByCategory(Some("PRIMARY_INCOME")) == Some("paycheck.svg")
  {
    assert ToUpper("PRIMARY_INCOME") == "PRIMARY_INCOME";
    assert OwnValue(CategoryIconMap, "PRIMARY_INCOME") == Some("paycheck.svg");
  }

  /** A known brand name, or an unknown name with an iconed category, has an icon. */
  lemma HasBrandIconExamples()
    ensures HasBrandIconAsWritten(Some("Spotify"), Some("ENTERTAINMENT"))
    ensures HasBrandIconAsWritten(Some("Random"), Some("PRIMARY_INCOME"))
    ensures HasBrandIcon(Some("Spotify"), Some("ENTERTAINMENT"))
    ensures HasBrandIcon(Some("Random"), Some("PRIMARY_INCOME"))
  {
    BrandIconExampleSpotify();
    PrimaryIncomeIcon();
  }

  /** A name of special characters only: the source answers with the first entry, the corrected matcher with nothing. */
  lemma AsWrittenSpecialCharactersExample()
    ensures BrandLookupAsWritten(BrandIconMap, Some("!!!")) == Some(Str("Spotify.png"))
    ensures BrandLookupAsWritten(BrandColors, Some("!!!")) == Some(Str("#1A2B2C"))
    ensures BrandLookup(BrandIconMap, Some("!!!")).None? && BrandLookup(BrandColors, Some("!!!")).None?
  {
    BangsNormalizeToNothing();
    NoEmptyBrandKey();
    AsWrittenEmptyNameTakesFirstEntry(BrandIconMap, "!!!");
    AsWrittenEmptyNameTakesFirstEntry(BrandColors, "!!!");
  }

  lemma BangsNormalizeToNothing()
    ensures NormalizeName("!!!") == ""
  {
    assert ToLower("!!!") == "!!!";
    assert Trim("!!!") == "!!!" by {
      assert TrimStart("!!!") == "!!!";
      assert TrimEnd("!!!") == "!!!";
    }
    assert StripSpecial("!!!") == "";
  }

  lemma NoEmptyBrandKey()
    ensures OwnValue(BrandIconMap, "").None? && OwnValue(BrandColors, "").None?
  {
    assert forall i :: 0 <= i < |BrandIconMap| ==> BrandIconMap[i].0 != [];
    assert forall i :: 0 <= i < |BrandColors| ==> BrandColors[i].0 != [];
  }

  lemma ConstructorIsLetters()
    ensures AsciiLetters("Constructor") && ToLower("Constructor") == "constructor"
  {
  }

  lemma ConstructorNotABrand()
    ensures OwnValue(BrandIconMap, "constructor").None? && OwnValue(BrandColors, "constructor").None?
  {
    var k := "constructor";
    assert k[0] == 'c';
    assert forall i :: 0 <= i < |BrandIconMap| ==> BrandIconMap[i].0 != [] && BrandIconMap[i].0[0] != 'c';
    assert forall i :: 0 <= i < |BrandColors| ==> BrandColors[i].0 != [] && BrandColors[i].0[0] != 'c';
  }

  /** The name "Constructor" reads the `constructor` member every object inherits. */
  lemma AsWrittenConstructorExample()
    ensures BrandLookupAsWritten(BrandIconMap, Some("Constructor")) == Some(Inherited("constructor"))
    ensures BrandLookupAsWritten(BrandColors, Some("Constructor")) == Some(Inherited("constructor"))
    ensures HasBrandIconAsWritten(Some("Constructor"), None)
  {
    ConstructorIsLetters();
    ConstructorNotABrand();
    AsWrittenInheritedHit(BrandIconMap, "Constructor", "constructor");
    AsWrittenInheritedHit(BrandColors, "Constructor", "constructor");
  }

  // "Constructor Inc": the first-word stage reads an inherited member. The
  // facts are stated of parameters equal to the literals, so that each proof
  // unfolds only the definitions it needs.

  lemma ConstructorIncWords()
    ensures AsciiWords("Constructor Inc") && ToLower("Constructor Inc") == "constructor inc"
  {
  }

  lemma ConstructorIncNormalizes(name: string)
    requires name == "Constructor Inc"
    ensures NormalizeName(name) == "constructor inc"
  {
    ConstructorIncWords();
    NormalizeWords(name);
  }

  lemma ConstructorIncFirstWord(n: string)
    requires n == "constructor inc"
    ensures FirstWord(n) == "constructor"
  {
    assert IsJsSpace(n[11]) && forall i :: 0 <= i < 11 ==> !IsJsSpace(n[i]);
    FirstWordUpToSpace(n, 11);
    assert n[..11] == "constructor";
  }

  lemma ConstructorIncNotAKey()
    ensures OwnValue(BrandIconMap, "constructor inc").None? && OwnValue(BrandColors, "constructor inc").None?
  {
    var n := "constructor inc";
    assert n[0] == 'c';
    assert forall i :: 0 <= i < |BrandIconMap| ==> BrandIconMap[i].0 != [] && BrandIconMap[i].0[0] != 'c';
    assert forall i :: 0 <= i < |BrandColors| ==> BrandColors[i].0 != [] && BrandColors[i].0[0] != 'c';
  }

  /** 'c' is in no key, and every key has a letter, at the position given, that "constructor inc" lacks. */
  lemma ConstructorIncNoIconPartial(n: string)
    requires n == "constructor inc"
    ensures FirstPartialMatch(BrandIconMap, n).None?
  {
    NoPartialMatchByChars(BrandIconMap, n, 'c', [1, 0, 0, 0, 0, 0, 3, 3, 0, 3, 0]);
  }

  lemma ConstructorIncNoColorPartial(n: string)
    requires n == "constructor inc"
    ensures FirstPartialMatch(BrandColors, n).None?
  {
    NoPartialMatchByChars(BrandColors, n, 'c', [0]);
  }

  lemma ConstructorIncKeys(norm: string, w: string)
    requires norm == "constructor inc" && w == "constructor"
    ensures norm !in ObjectPrototypeKeys && w in ObjectPrototypeKeys
  {
  }

  lemma ConstructorIncFacts(norm: string, w: string)
    requires norm == "constructor inc" && w == "constructor"
    ensures norm !in ObjectPrototypeKeys && w in ObjectPrototypeKeys && FirstWord(norm) == w
    ensures OwnValue(BrandIconMap, norm).None? && OwnValue(BrandColors, norm).None?
    ensures FirstPartialMatch(BrandIconMap, norm).None? && FirstPartialMatch(BrandColors, norm).None?
    ensures OwnValue(BrandIconMap, w).None? && OwnValue(BrandColors, w).None?
  {
    ConstructorIncNotAKey();
    ConstructorIncNoIconPartial(norm);
    ConstructorIncNoColorPartial(norm);
    ConstructorIncFirstWord(norm);
    ConstructorNotABrand();
    ConstructorIncKeys(norm, w);
  }

  lemma AsWrittenFirstWordConstructor(name: string, norm: string, w: string)
    requires name == "Constructor Inc" && norm == "constructor inc" && w == "constructor"
    ensures BrandLookupAsWritten(BrandIconMap, Some(name)) == Some(Inherited(w))
    ensures BrandLookupAsWritten(BrandColors, Some(name)) == Some(Inherited(w))
    ensures HasBrandIconAsWritten(Some(name), None)
    ensures BrandLookup(BrandIconMap, Some(name)).None?
    ensures !HasBrandIcon(Some(name), None)
  {
    ConstructorIncNormalizes(name);
    ConstructorIncFacts(norm, w);
    AsWrittenFirstWordInheritedHit(BrandIconMap, name, norm, w);
    AsWrittenFirstWordInheritedHit(BrandColors, name, norm, w);
  }

  /**
   * "Constructor Inc" misses the exact and partial stages, and its first word
   * reads the inherited `constructor` from both maps; the corrected matcher
   * finds nothing.
   */
  lemma AsWrittenFirstWordConstructorExample()
    ensures BrandLookupAsWritten(BrandIconMap, Some("Constructor Inc")) == Some(Inherited("constructor"))
    ensures BrandLookupAsWritten(BrandColors, Some("Constructor Inc")) == Some(Inherited("constructor"))
    ensures HasBrandIconAsWritten(Some("Constructor Inc"), None)
    ensures BrandLookup(BrandIconMap, Some("Constructor Inc")).None?
    ensures !HasBrandIcon(Some("Constructor Inc"), None)
  {
    AsWrittenFirstWordConstructor("Constructor Inc", "constructor inc", "constructor");
  }
}
