/**
 * The translation-direction heuristic of `translate_text`: which target language to
 * ask for, decided only by whether the text contains Cyrillic letters (`[А-Яа-яЁё]`)
 * and Latin letters (`[A-Za-z]`).
 */
module Direction {

  /** The character class `[А-Яа-яЁё]`: U+0410 to U+044F, plus Ё (U+0401) and ё (U+0451). */
  predicate IsCyrillic(c: char) {
    ('\U{0410}' <= c <= '\U{044F}') || c == '\U{0401}' || c == '\U{0451}'
  }

  /** The character class `[A-Za-z]`. */
  predicate IsLatin(c: char) {
    ('A' <= c <= 'Z') || ('a' <= c <= 'z')
  }

  /** `CYRILLIC_RE.search(s)` succeeds, scanning left to right. */
  function SearchCyrillic(s: string): (found: bool)
  {
    |s| > 0 && (IsCyrillic(s[0]) || SearchCyrillic(s[1..]))
  }

  /** `LATIN_RE.search(s)` succeeds, scanning left to right. */
  function SearchLatin(s: string): (found: bool)
  {
    |s| > 0 && (IsLatin(s[0]) || SearchLatin(s[1..]))
  }

  /** The search succeeds exactly when some character of the text is in the class. */
  lemma {:induction false} SearchCyrillicIff(s: string)
    ensures SearchCyrillic(s) <==> exists i :: 0 <= i < |s| && IsCyrillic(s[i])
  {
    if |s| > 0 {
      SearchCyrillicIff(s[1..]);
      if IsCyrillic(s[0]) {
        assert 0 < |s| && IsCyrillic(s[0]);
      } else if exists i :: 0 <= i < |s| && IsCyrillic(s[i]) {
        var i :| 0 <= i < |s| && IsCyrillic(s[i]);
        assert s[1..][i - 1] == s[i];
      } else {
        forall i | 0 <= i < |s[1..]| ensures !IsCyrillic(s[1..][i]) {
          assert s[1..][i] == s[i + 1];
        }
      }
    }
  }

  /** The search succeeds exactly when some character of the text is in the class. */
  lemma {:induction false} SearchLatinIff(s: string)
    ensures SearchLatin(s) <==> exists i :: 0 <= i < |s| && IsLatin(s[i])
  {
    if |s| > 0 {
      SearchLatinIff(s[1..]);
      if IsLatin(s[0]) {
        assert 0 < |s| && IsLatin(s[0]);
      } else if exists i :: 0 <= i < |s| && IsLatin(s[i]) {
        var i :| 0 <= i < |s| && IsLatin(s[i]);
        assert s[1..][i - 1] == s[i];
      } else {
        forall i | 0 <= i < |s[1..]| ensures !IsLatin(s[1..][i]) {
          assert s[1..][i] == s[i + 1];
        }
      }
    }
  }

  /** The target language handed to the translator and the label counted in `translations`. */
  datatype Route = Route(target: string, direction: string)

  const RuToEn := "ru_to_en"
  const EnToRu := "en_to_ru"
  const Other := "other"

  /** The three labels `translations` is seeded with. */
  const Directions: set<string> := {RuToEn, EnToRu, Other}

  /** The if/elif/else of `translate_text` choosing `target_lang` and `direction`. */
  function Classify(text: string): (r: Route)
    ensures r.direction in Directions
  {
    if SearchCyrillic(text) && !SearchLatin(text) then Route("en", RuToEn)
    else if SearchLatin(text) && !SearchCyrillic(text) then Route("ru", EnToRu)
    else Route("en", Other)
  }

  /**
   * Each direction in terms of the letters present: Cyrillic only gives Russian-to-English,
   * Latin only gives English-to-Russian, both or neither give "other" (still into English).
   */
  lemma ClassifyByScripts(text: string)
    ensures var cyr := exists i :: 0 <= i < |text| && IsCyrillic(text[i]);
            var lat := exists i :: 0 <= i < |text| && IsLatin(text[i]);
            && (Classify(text) == Route("en", RuToEn) <==> cyr && !lat)
            && (Classify(text) == Route("ru", EnToRu) <==> lat && !cyr)
            && (Classify(text) == Route("en", Other) <==> cyr == lat)
  {
    SearchCyrillicIff(text);
    SearchLatinIff(text);
  }
}
