/** Serbian Cyrillic and Latin-with-diacritics to plain lower-case ASCII, as the post service uses it
    to normalise addresses before searching. */
module Transliteration {
  import opened Common
  import Strings

  /** An entry of the dictionary: one or two ASCII characters. */
  predicate SoundValue(v: string)
  {
    1 <= |v| <= 2 && AllAscii(v)
  }

  /** The entries `fillDictionary` assigns to the Cyrillic lower-case letters. */
  function CyrillicLower(c: char): (r: Option<string>)
    ensures r.Some? ==> SoundValue(r.value)
  {
    match c
    case 'а' => Some("a") case 'б' => Some("b") case 'в' => Some("v") case 'г' => Some("g")
    case 'д' => Some("d") case 'ђ' => Some("dj") case 'е' => Some("e") case 'ж' => Some("z")
    case 'з' => Some("z") case 'и' => Some("i") case 'ј' => Some("j") case 'к' => Some("k")
    case 'л' => Some("l") case 'љ' => Some("lj") case 'м' => Some("m") case 'н' => Some("n")
    case 'њ' => Some("nj") case 'о' => Some("o") case 'п' => Some("p") case 'р' => Some("r")
    case 'с' => Some("s") case 'т' => Some("t") case 'ћ' => Some("c") case 'у' => Some("u")
    case 'ф' => Some("f") case 'х' => Some("h") case 'ц' => Some("c") case 'ч' => Some("c")
    case 'џ' => Some("dz") case 'ш' => Some("s")
    case _ => None
  }

  /** The entries for the Cyrillic upper-case letters; the digraph letters map to two upper-case
      letters. */
  function CyrillicUpper(c: char): (r: Option<string>)
    ensures r.Some? ==> SoundValue(r.value)
  {
    match c
    case 'А' => Some("A") case 'Б' => Some("B") case 'В' => Some("V") case 'Г' => Some("G")
    case 'Д' => Some("D") case 'Ђ' => Some("DJ") case 'Е' => Some("E") case 'Ж' => Some("Z")
    case 'З' => Some("Z") case 'И' => Some("I") case 'Ј' => Some("J") case 'К' => Some("K")
    case 'Л' => Some("L") case 'Љ' => Some("LJ") case 'М' => Some("M") case 'Н' => Some("N")
    case 'Њ' => Some("NJ") case 'О' => Some("O") case 'П' => Some("P") case 'Р' => Some("R")
    case 'С' => Some("S") case 'Т' => Some("T") case 'Ћ' => Some("C") case 'У' => Some("U")
    case 'Ф' => Some("F") case 'Х' => Some("H") case 'Ц' => Some("C") case 'Ч' => Some("C")
    case 'Џ' => Some("DZ") case 'Ш' => Some("S")
    case _ => None
  }

  /** The entries for the single Latin letters with diacritics, each case mapped to lower case. */
  function LatinLetter(c: char): (r: Option<string>)
    ensures r.Some? ==> SoundValue(r.value)
  {
    match c
    case 'ć' => Some("c") case 'č' => Some("c") case 'ž' => Some("z") case 'š' => Some("s")
    case 'đ' => Some("dj") case 'Ć' => Some("c") case 'Č' => Some("c") case 'Ž' => Some("z")
    case 'Š' => Some("s") case 'Đ' => Some("dj")
    case _ => None
  }

  /** The entry for a one-character key. Every key is a non-ASCII letter. */
  function Letter(c: char): (r: Option<string>)
    ensures r.Some? ==> !IsAscii(c) && SoundValue(r.value)
  {
    if IsAscii(c) then None
    else if LatinLetter(c).Some? then LatinLetter(c)
    else if CyrillicUpper(c).Some? then CyrillicUpper(c)
    else CyrillicLower(c)
  }

  /** The dictionary object `fillDictionary` fills, read with a string key: the one-character keys
      above, and the two Latin keys "dž" and "DŽ", which are two characters long. */
  function Lookup(key: string): Option<string>
  {
    if |key| == 1 then Letter(key[0])
    else if key == "dž" || key == "DŽ" then Some("dz")
    else None
  }

  predicate IsAscii(c: char)
  {
    c as int < 128
  }

  predicate AllAscii(s: string)
  {
    forall k :: 0 <= k < |s| ==> IsAscii(s[k])
  }

  /** Every key of the dictionary is one or two characters long and ends in a non-ASCII character,
      and every entry is one or two ASCII characters. */
  lemma {:induction false} LookupSound(key: string)
    requires Lookup(key).Some?
    ensures 1 <= |key| <= 2 && !IsAscii(key[|key| - 1])
    ensures SoundValue(Lookup(key).value)
  {
  }

  /** What one character of the input contributes: its entry, looked up with the one-character
      string, or the character itself. Looking up a two-character key never happens. */
  function Entry(c: char): (r: string)
    ensures Lookup([c]).Some? ==> r == Lookup([c]).value
    ensures Lookup([c]).None? ==> r == [c]
  {
    match Lookup([c])
    case Some(v) => v
    case None => [c]
  }

  /** The characters of s, each replaced by its entry, in order. */
  function MapChars(s: string): string
  {
    if s == [] then [] else MapChars(s[..|s| - 1]) + Entry(s[|s| - 1])
  }

  /** The two place names are replaced first, once each and case-sensitively. */
  function Replaced(word: string): string
  {
    Strings.ReplaceFirst(Strings.ReplaceFirst(word, "Belgrade", "Beograd"), "Serbia", "Srbija")
  }

  /** What `transliterate(word)` returns. */
  function Transliterated(word: string): string
  {
    Strings.ToLower(MapChars(Replaced(word)))
  }

  /** `transliterate`: replace the place names, append each character's entry to the answer, and
      lowercase the answer. */
  method Transliterate(word: string) returns (r: string)
    ensures r == Transliterated(word)
  {
    var w := Strings.ReplaceFirst(word, "Belgrade", "Beograd");
    w := Strings.ReplaceFirst(w, "Serbia", "Srbija");
    var answer := "";
    for i := 0 to |w|
      invariant answer == MapChars(w[..i])
    {
      assert w[..i + 1][..i] == w[..i];
      var entry := Lookup([w[i]]);
      if entry.None? {
        answer := answer + [w[i]];
      } else {
        answer := answer + entry.value;
      }
    }
    assert w[..|w|] == w;
    r := Strings.ToLower(answer);
  }

  /** Mapping is done character by character, so it distributes over concatenation. */
  lemma {:induction false} MapCharsAppend(a: string, b: string)
    decreases |b|
    ensures MapChars(a + b) == MapChars(a) + MapChars(b)
  {
    if b != [] {
      var b' := b[..|b| - 1];
      assert (a + b)[..|a + b| - 1] == a + b';
      MapCharsAppend(a, b');
    } else {
      assert a + b == a;
    }
  }

  /** Every character contributes one or two characters, so the output is at least as long as the
      input and at most twice as long. */
  lemma {:induction false} MapCharsLength(s: string)
    ensures |s| <= |MapChars(s)| <= 2 * |s|
  {
    if s != [] {
      MapCharsLength(s[..|s| - 1]);
      var c := s[|s| - 1];
      if Lookup([c]).Some? {
        LookupSound([c]);
      }
    }
  }

  /** An ASCII character is its own entry: no key is one ASCII character. */
  lemma AsciiEntry(c: char)
    requires IsAscii(c)
    ensures Entry(c) == [c]
  {
    if Lookup([c]).Some? {
      LookupSound([c]);
    }
  }

  /** Pure ASCII text passes through the mapping unchanged. */
  lemma {:induction false} MapCharsAscii(s: string)
    requires AllAscii(s)
    ensures MapChars(s) == s
  {
    if s != [] {
      var c := s[|s| - 1];
      AsciiEntry(c);
      var p := s[..|s| - 1];
      assert forall k :: 0 <= k < |p| ==> p[k] == s[k];
      MapCharsAscii(p);
      assert s[..|s| - 1] + [c] == s;
    }
  }

  /** ASCII text containing neither place name comes back as its ASCII lowercase. */
  lemma AsciiPassesThrough(word: string)
    requires AllAscii(word)
    requires !Strings.Includes(word, "Belgrade") && !Strings.Includes(word, "Serbia")
    ensures Transliterated(word) == Strings.ToLower(word)
  {
    MapCharsAscii(word);
  }

  /** The output is at least as long as the text after the place names are replaced, and at most
      twice as long. */
  lemma TransliteratedLength(word: string)
    ensures |Replaced(word)| <= |Transliterated(word)| <= 2 * |Replaced(word)|
  {
    MapCharsLength(Replaced(word));
  }

  /** Mapping a two-character string. */
  lemma MapPair(a: char, b: char)
    ensures MapChars([a, b]) == Entry(a) + Entry(b)
  {
    assert MapChars([a]) == Entry(a) by { assert [a][..0] == []; }
    assert MapChars([a, b]) == MapChars([a]) + Entry(b) by { assert [a, b][..1] == [a]; }
  }

  /** The two-character keys are in the dictionary but never looked up: "dž" still becomes "dz",
      because "d" passes through and "ž" has its own entry, and "DŽ" becomes "Dz". */
  lemma DigraphKeysUnused()
    ensures Lookup("dž") == Some("dz") && Lookup("DŽ") == Some("dz")
    ensures MapChars("dž") == "dz" && MapChars("DŽ") == "Dz"
  {
    AsciiEntry('d');
    AsciiEntry('D');
    assert Entry('ž') == "z" && Entry('Ž') == "z";
    MapPair('d', 'ž');
    MapPair('D', 'Ž');
    assert "dž" == ['d', 'ž'] && "DŽ" == ['D', 'Ž'];
  }

  /** Both spellings of the digraph come out as "dz" after lowercasing. */
  lemma DigraphsTransliterated()
    ensures Transliterated("dž") == "dz" && Transliterated("DŽ") == "dz"
  {
    assert Replaced("dž") == "dž" && Replaced("DŽ") == "DŽ";
    DigraphKeysUnused();
    Strings.ToLowerAppend("D", "z");
    Strings.ToLowerNoUpper("z");
  }

  /** "Serbia" does not occur in "Beograd". */
  lemma NoSerbiaInBeograd()
    ensures !Strings.Includes("Beograd", "Serbia")
  {
    var s := "Beograd";
    assert Strings.IndexFrom(s, "Serbia", 2) == -1;
    assert s[1..7] != "Serbia" by { assert s[1..7][0] == 'e'; }
    assert Strings.IndexFrom(s, "Serbia", 1) == -1;
    assert s[0..6] != "Serbia" by { assert s[0..6][0] == 'B'; }
    assert Strings.IndexFrom(s, "Serbia", 0) == -1;
  }

  /** Neither place name occurs in "belgrade". */
  lemma NoPlaceNameInLowerBelgrade()
    ensures !Strings.Includes("belgrade", "Belgrade") && !Strings.Includes("belgrade", "Serbia")
  {
    var s := "belgrade";
    assert Strings.IndexFrom(s, "Belgrade", 1) == -1;
    assert s[0..8] != "Belgrade" by { assert s[0..8][0] == 'b'; }
    assert Strings.IndexFrom(s, "Belgrade", 0) == -1;
    assert Strings.IndexFrom(s, "Serbia", 3) == -1;
    assert s[2..8] != "Serbia" by { assert s[2..8][0] == 'l'; }
    assert Strings.IndexFrom(s, "Serbia", 2) == -1;
    assert s[1..7] != "Serbia" by { assert s[1..7][0] == 'e'; }
    assert Strings.IndexFrom(s, "Serbia", 1) == -1;
    assert s[0..6] != "Serbia" by { assert s[0..6][0] == 'b'; }
    assert Strings.IndexFrom(s, "Serbia", 0) == -1;
  }

  /** "Belgrade" is replaced by "Beograd"; "belgrade" is left as it is. */
  lemma ReplacedBelgrade()
    ensures Replaced("Belgrade") == "Beograd" && Replaced("belgrade") == "belgrade"
  {
    assert Strings.IndexOf("Belgrade", "Belgrade") == 0;
    assert Strings.ReplaceFirst("Belgrade", "Belgrade", "Beograd") == "Beograd";
    NoSerbiaInBeograd();
    NoPlaceNameInLowerBelgrade();
  }

  /** An ASCII word that the place-name replacement turns into t comes out as t lowercased. */
  lemma {:induction false} AsciiReplacement(word: string, t: string)
    requires Replaced(word) == t && AllAscii(t)
    ensures Transliterated(word) == Strings.ToLower(t)
  {
    MapCharsAscii(t);
  }

  /** "Beograd" is ASCII throughout. */
  lemma BeogradAscii()
    ensures AllAscii("Beograd")
  {
  }

  /** Lowercasing "Beograd" only changes its capital. */
  lemma LowerBeograd()
    ensures Strings.ToLower("Beograd") == "beograd"
  {
    Strings.ToLowerAppend("B", "eograd");
    Strings.ToLowerNoUpper("eograd");
    assert "B" + "eograd" == "Beograd";
  }

  /** "Belgrade" becomes "beograd". */
  lemma BelgradeTransliterated()
    ensures Transliterated("Belgrade") == "beograd"
  {
    ReplacedBelgrade();
    BeogradAscii();
    AsciiReplacement("Belgrade", "Beograd");
    LowerBeograd();
  }

  /** "belgrade" is only lowercased, which leaves it as it is. */
  lemma LowerBelgradeTransliterated()
    ensures Transliterated("belgrade") == "belgrade"
  {
    ReplacedBelgrade();
    AsciiReplacement("belgrade", "belgrade");
    Strings.ToLowerNoUpper("belgrade");
  }

  /** The place-name replacement is case-sensitive: "Belgrade" becomes "beograd", while "belgrade"
      is only lowercased. */
  lemma PlaceNamesCaseSensitive()
    ensures Transliterated("Belgrade") == "beograd"
    ensures Transliterated("belgrade") == "belgrade"
  {
    BelgradeTransliterated();
    LowerBelgradeTransliterated();
  }

  /** A one-letter word becomes its entry, lowercased. */
  lemma {:induction false} OneLetter(c: char)
    ensures Transliterated([c]) == Strings.ToLower(Entry(c))
  {
    assert Replaced([c]) == [c];
    assert MapChars([c]) == Entry(c) by { assert [c][..0] == []; }
  }

  /** The Latin letter Đ becomes "dj". */
  lemma LatinDjLetter()
    ensures Transliterated("Đ") == "dj"
  {
    OneLetter('Đ');
    assert "Đ" == ['Đ'];
    assert Entry('Đ') == "dj";
    Strings.ToLowerNoUpper("dj");
  }

  /** The Cyrillic letter Љ becomes "lj". */
  lemma CyrillicLjLetter()
    ensures Transliterated("Љ") == "lj"
  {
    OneLetter('Љ');
    assert "Љ" == ['Љ'];
    assert Entry('Љ') == "LJ";
    Strings.ToLowerAppend("L", "J");
    assert "L" + "J" == "LJ";
  }

  /** Cyrillic and Latin digraph letters become two lower-case letters. */
  lemma DigraphLetters()
    ensures Transliterated("Đ") == "dj" && Transliterated("Љ") == "lj"
  {
    LatinDjLetter();
    CyrillicLjLetter();
  }
}
