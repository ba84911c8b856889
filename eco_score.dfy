/** The eco score of a product tile: a flat +20 for every keyword phrase of a fixed
    table found in the lower-cased title or the lower-cased snippet, capped at 100.
    Strings are sequences of characters; lower-casing is ASCII only (every keyword is ASCII). */
module EcoScore {

  /** The four groups of the attribute table, in the order the scorer visits them. */
  datatype Category = Recycling | Practices | Impact | Material

  const Categories: seq<Category> := [Recycling, Practices, Impact, Material]

  /** The keyword phrases of one group, all lower-case, in table order. */
  function Keywords(c: Category): (ks: seq<string>)
    ensures |ks| == (if c == Material then 9 else 3)
  {
    match c
    case Recycling => ["recyclable", "recycled materials", "zero waste"]
    case Practices => ["sustainable production", "eco-friendly manufacturing", "carbon neutral"]
    case Impact => ["biodegradable", "plastic-free", "renewable"]
    case Material => ["bamboo", "organic cotton", "hemp", "cotton", "silk", "wool", "linen", "wood", "leather"]
  }

  /** The phrases of the given groups, group after group. */
  function KeywordsOf(cs: seq<Category>): seq<string>
  {
    if cs == [] then [] else KeywordsOf(cs[..|cs| - 1]) + Keywords(cs[|cs| - 1])
  }

  /** The whole table flattened: the 18 phrases in the order the scorer tries them. */
  const AllKeywords: seq<string> :=
    Keywords(Recycling) + Keywords(Practices) + Keywords(Impact) + Keywords(Material)

  /** The table has 18 phrases and none of them is empty. */
  lemma AllKeywordsShape()
    ensures |AllKeywords| == 18
    ensures forall k :: k in AllKeywords ==> |k| > 0
  {
  }

  /** What one matched phrase adds, and the cap on the sum. */
  const Increment: int := 20
  const MaxScore: int := 100

  function Min(a: int, b: int): int { if a <= b then a else b }

  // ---------------------------------------------------------------------------
  // Lower-casing (ASCII)
  // ---------------------------------------------------------------------------

  predicate IsUpper(c: char) { 'A' <= c <= 'Z' }

  function LowerChar(c: char): char
  {
    if IsUpper(c) then (c as int + 32) as char else c
  }

  function UpperChar(c: char): char
  {
    if 'a' <= c <= 'z' then (c as int - 32) as char else c
  }

  /** `s.toLowerCase()`, restricted to ASCII letters. */
  function Lower(s: string): (r: string)
    ensures |r| == |s| && IsLowerCase(r)
    ensures forall i :: 0 <= i < |s| && !IsUpper(s[i]) ==> r[i] == s[i]
  {
    seq(|s|, i requires 0 <= i < |s| => LowerChar(s[i]))
  }

  /** `s.toUpperCase()`, restricted to ASCII letters. */
  function Upper(s: string): string
  {
    seq(|s|, i requires 0 <= i < |s| => UpperChar(s[i]))
  }

  /** Two texts that differ at most in the case of their letters. */
  predicate SameIgnoringCase(a: string, b: string)
  {
    |a| == |b| && forall i :: 0 <= i < |a| ==> LowerChar(a[i]) == LowerChar(b[i])
  }

  /** A text with no upper-case letter. */
  predicate IsLowerCase(s: string)
  {
    forall c :: c in s ==> !IsUpper(c)
  }

  lemma LowerOfLowerCase(s: string)
    requires IsLowerCase(s)
    ensures Lower(s) == s
  {
    forall i | 0 <= i < |s| ensures Lower(s)[i] == s[i] {
      assert s[i] in s;
    }
  }

  lemma LowerAppend(a: string, b: string)
    ensures Lower(a + b) == Lower(a) + Lower(b)
  {
    assert forall i :: 0 <= i < |a + b| ==> Lower(a + b)[i] == (Lower(a) + Lower(b))[i];
  }

  lemma LowerAppend4(a: string, b: string, c: string, d: string)
    ensures Lower(a + b + c + d) == Lower(a) + Lower(b) + Lower(c) + Lower(d)
  {
    LowerAppend(a + b + c, d);
    LowerAppend(a + b, c);
    LowerAppend(a, b);
  }

  /** Lower-casing forgets exactly the case of letters: it is insensitive to upper-casing. */
  lemma LowerOfUpper(s: string)
    ensures SameIgnoringCase(s, Upper(s)) && Lower(Upper(s)) == Lower(s)
  {
    forall i | 0 <= i < |s| ensures LowerChar(Upper(s)[i]) == LowerChar(s[i]) {
    }
  }

  // ---------------------------------------------------------------------------
  // Substring search (`String.prototype.includes`)
  // ---------------------------------------------------------------------------

  /** k occurs in s starting at position i. */
  predicate OccursAt(s: string, k: string, i: int)
  {
    0 <= i && i + |k| <= |s| && s[i..i + |k|] == k
  }

  /** `s.includes(k)`: k occurs in s at some position. */
  predicate Includes(s: string, k: string): (b: bool)
    ensures b ==> |k| <= |s|
    ensures k == [] ==> b
  {
    assert k == [] ==> OccursAt(s, k, 0);
    exists i | 0 <= i <= |s| - |k| :: OccursAt(s, k, i)
  }

  /** A match survives text added on either side. */
  lemma IncludesInfix(before: string, s: string, after: string, k: string)
    requires Includes(s, k)
    ensures Includes(before + s + after, k)
  {
    var i :| OccursAt(s, k, i);
    assert OccursAt(s, k, i);
    var t := before + s + after;
    assert t[|before| + i..|before| + i + |k|] == s[i..i + |k|];
    assert OccursAt(t, k, |before| + i);
  }

  /** Every phrase occurs in itself. */
  lemma IncludesSelf(k: string)
    ensures Includes(k, k)
  {
    assert OccursAt(k, k, 0);
  }

  /** A text that lacks one of the characters of k does not include k. */
  lemma MissingCharExcludes(s: string, k: string, c: char)
    requires c in k && c !in s
    ensures !Includes(s, k)
  {
    var j :| 0 <= j < |k| && k[j] == c;
    forall i | 0 <= i && i + |k| <= |s| ensures !OccursAt(s, k, i) {
      assert s[i + j] in s;
      assert s[i..i + |k|][j] == s[i + j];
    }
  }

  /** A text includes k only if it has at least as many copies of every character as k has. */
  lemma IncludesMultiset(s: string, k: string)
    requires Includes(s, k)
    ensures multiset(k) <= multiset(s)
  {
    var i :| OccursAt(s, k, i);
    assert OccursAt(s, k, i);
    assert s == s[..i] + k + s[i + |k|..];
  }

  /** When the first character of k is absent from a, a match in a + b lies wholly in b. */
  lemma SplitAtFirstChar(a: string, b: string, k: string)
    requires |k| > 0 && k[0] !in a && Includes(a + b, k)
    ensures Includes(b, k)
  {
    var i :| OccursAt(a + b, k, i);
    assert OccursAt(a + b, k, i);
    assert (a + b)[i..i + |k|][0] == (a + b)[i];
    assert b[i - |a|..i - |a| + |k|] == (a + b)[i..i + |k|];
    assert OccursAt(b, k, i - |a|);
  }

  /** The phrase "organic cotton" contains the phrase "cotton", so both always match together. */
  lemma OrganicCottonIncludesCotton(s: string)
    requires Includes(s, "organic cotton")
    ensures Includes(s, "cotton")
  {
    var i :| OccursAt(s, "organic cotton", i);
    assert OccursAt(s, "organic cotton", i);
    assert "organic cotton" == "organic " + "cotton";
    assert s[i + 8..i + 14] == s[i..i + 14][8..14];
    assert OccursAt(s, "cotton", i + 8);
  }

  // ---------------------------------------------------------------------------
  // The score as a specification
  // ---------------------------------------------------------------------------

  /** The scorer's test for one phrase: it occurs in the lower-cased title or the lower-cased snippet. */
  predicate Hit(k: string, title: string, snippet: string): (b: bool)
    ensures b ==> |k| <= |title| || |k| <= |snippet|
    ensures k == [] ==> b
  {
    Includes(Lower(title), k) || Includes(Lower(snippet), k)
  }

  /** The phrases of keys that hit, in order, each occurrence in keys counted once. */
  function Matched(keys: seq<string>, title: string, snippet: string): (m: seq<string>)
    ensures |m| <= |keys|
    ensures forall k :: k in m <==> k in keys && Hit(k, title, snippet)
  {
    if keys == [] then []
    else
      var init := Matched(keys[..|keys| - 1], title, snippet);
      var k := keys[|keys| - 1];
      assert forall x :: x in keys <==> x in keys[..|keys| - 1] || x == k;
      if Hit(k, title, snippet) then init + [k] else init
  }

  /** The eco score of a product with the given title and snippet. */
  function Score(title: string, snippet: string): (r: int)
    ensures 0 <= r <= MaxScore && r % Increment == 0
  {
    Min(Increment * |Matched(AllKeywords, title, snippet)|, MaxScore)
  }

  /** The set of table phrases found in the title or the snippet. */
  function Found(title: string, snippet: string): set<string>
  {
    FoundIn(AllKeywords, title, snippet)
  }

  // ---------------------------------------------------------------------------
  // The scorer as the component runs it
  // ---------------------------------------------------------------------------

  lemma MatchedAppend(a: seq<string>, b: seq<string>, title: string, snippet: string)
    ensures Matched(a + b, title, snippet) == Matched(a, title, snippet) + Matched(b, title, snippet)
    decreases |b|
  {
    if b != [] {
      var b' := b[..|b| - 1];
      assert (a + b)[..|a + b| - 1] == a + b';
      MatchedAppend(a, b', title, snippet);
    } else {
      assert a + b == a;
    }
  }

  /** Trying one more phrase adds one hit exactly when that phrase is found. */
  lemma CountStep(done: seq<string>, keys: seq<string>, a: int, title: string, snippet: string)
    requires 0 <= a < |keys|
    ensures |Matched(done + keys[..a + 1], title, snippet)|
         == |Matched(done + keys[..a], title, snippet)| + (if Hit(keys[a], title, snippet) then 1 else 0)
  {
    assert (done + keys[..a + 1])[..|done| + a] == done + keys[..a];
  }

  /** Finishing a group appends its phrases to those already visited. */
  lemma GroupStep(c: int)
    requires 0 <= c < |Categories|
    ensures KeywordsOf(Categories[..c + 1]) == KeywordsOf(Categories[..c]) + Keywords(Categories[c])
  {
    assert Categories[..c + 1][..c] == Categories[..c];
  }

  /** Visiting the groups in order visits the flattened table. */
  lemma CategoriesCoverTable()
    ensures KeywordsOf(Categories) == AllKeywords
  {
    assert Categories[..|Categories|] == Categories;
    GroupStep(0);
    GroupStep(1);
    GroupStep(2);
    GroupStep(3);
    assert Categories[..0] == [];
  }

  /** `calculateEcoScore`: two nested loops over the groups and their phrases add 20 per
      phrase found, then the sum is capped at 100. */
  method CalculateEcoScore(title: string, snippet: string) returns (score: int)
    ensures score == Score(title, snippet)
  {
    score := 0;
    for c := 0 to |Categories|
      invariant score == Increment * |Matched(KeywordsOf(Categories[..c]), title, snippet)|
    {
      var attributes := Keywords(Categories[c]);
      ghost var done := KeywordsOf(Categories[..c]);
      assert done + attributes[..0] == done;
      for a := 0 to |attributes|
        invariant score == Increment * |Matched(done + attributes[..a], title, snippet)|
      {
        if Includes(Lower(title), attributes[a]) || Includes(Lower(snippet), attributes[a]) {
          score := score + Increment;
        }
        CountStep(done, attributes, a, title, snippet);
      }
      assert attributes[..|attributes|] == attributes;
      GroupStep(c);
    }
    assert Categories[..|Categories|] == Categories;
    CategoriesCoverTable();
    score := Min(score, MaxScore);
  }

  // ---------------------------------------------------------------------------
  // Properties of the score
  // ---------------------------------------------------------------------------

  /** The table lists no phrase twice. */
  predicate Distinct(s: seq<string>)
  {
    forall i, j :: 0 <= i < j < |s| ==> s[i] != s[j]
  }

  lemma AllKeywordsDistinct()
    ensures Distinct(AllKeywords)
  {
    var t := AllKeywords;
    forall i, j | 0 <= i < j < |t| ensures t[i] != t[j] {
      // phrases of different lengths differ; the remaining pairs differ in a letter
      if |t[i]| == |t[j]| {
        assert t[i][0] != t[j][0] || t[i][|t[i]| - 1] != t[j][|t[j]| - 1];
      }
    }
  }

  /** The distinct phrases of keys that hit. */
  function FoundIn(keys: seq<string>, title: string, snippet: string): set<string>
  {
    set k | k in keys && Hit(k, title, snippet)
  }

  lemma FoundInSnoc(keys: seq<string>, title: string, snippet: string)
    requires keys != []
    ensures FoundIn(keys, title, snippet)
         == FoundIn(keys[..|keys| - 1], title, snippet)
            + (if Hit(keys[|keys| - 1], title, snippet) then {keys[|keys| - 1]} else {})
  {
    assert keys == keys[..|keys| - 1] + [keys[|keys| - 1]];
  }

  /** For a table without repetitions, the number of hits is the number of distinct phrases found. */
  lemma {:induction false} MatchedCountsFoundPhrases(keys: seq<string>, title: string, snippet: string)
    requires Distinct(keys)
    ensures |Matched(keys, title, snippet)| == |FoundIn(keys, title, snippet)|
  {
    if keys != [] {
      var init := keys[..|keys| - 1];
      var last := keys[|keys| - 1];
      assert Distinct(init);
      MatchedCountsFoundPhrases(init, title, snippet);
      FoundInSnoc(keys, title, snippet);
      assert last !in init by {
        forall i | 0 <= i < |init| ensures init[i] != last {
          assert keys[i] == init[i];
        }
      }
    }
  }

  /** The score is 20 times the number of table phrases found, capped at 100. */
  lemma ScoreCountsFoundPhrases(title: string, snippet: string)
    ensures Score(title, snippet) == Min(Increment * |Found(title, snippet)|, MaxScore)
  {
    AllKeywordsDistinct();
    MatchedCountsFoundPhrases(AllKeywords, title, snippet);
  }

  /** No phrase of the table is empty, so empty texts match nothing and score 0. */
  lemma EmptyTextScoresZero()
    ensures Score("", "") == 0
  {
    assert Lower("") == "";
    forall k | k in AllKeywords ensures !Hit(k, "", "") {
      assert |k| > 0;
    }
    assert Found("", "") == {};
    ScoreCountsFoundPhrases("", "");
  }

  /** Five or more distinct table phrases found saturate the score at 100. */
  lemma FivePhrasesSaturate(title: string, snippet: string, phrases: set<string>)
    requires |phrases| >= 5
    requires forall k :: k in phrases ==> k in AllKeywords && Hit(k, title, snippet)
    ensures Score(title, snippet) == MaxScore
  {
    ScoreCountsFoundPhrases(title, snippet);
    assert phrases <= Found(title, snippet);
    SubsetCardinality(phrases, Found(title, snippet));
  }

  lemma SubsetCardinality(a: set<string>, b: set<string>)
    requires a <= b
    ensures |a| <= |b|
  {
    assert b == a + (b - a);
  }

  /** Case-insensitivity: texts that differ only in letter case score the same. */
  lemma CaseInsensitive(title: string, snippet: string, title': string, snippet': string)
    requires SameIgnoringCase(title, title') && SameIgnoringCase(snippet, snippet')
    ensures Score(title, snippet) == Score(title', snippet')
  {
    assert Lower(title) == Lower(title');
    assert Lower(snippet) == Lower(snippet');
    assert forall k :: Hit(k, title, snippet) <==> Hit(k, title', snippet');
    MatchedSameHits(AllKeywords, title, snippet, title', snippet');
  }

  /** Upper-casing both texts leaves the score unchanged. */
  lemma UpperCaseKeepsScore(title: string, snippet: string)
    ensures Score(Upper(title), Upper(snippet)) == Score(title, snippet)
  {
    LowerOfUpper(title);
    LowerOfUpper(snippet);
    CaseInsensitive(Upper(title), Upper(snippet), title, snippet);
  }

  lemma {:induction false} MatchedSameHits(keys: seq<string>, t: string, s: string, t': string, s': string)
    requires forall k :: Hit(k, t, s) <==> Hit(k, t', s')
    ensures Matched(keys, t, s) == Matched(keys, t', s')
  {
    if keys != [] {
      MatchedSameHits(keys[..|keys| - 1], t, s, t', s');
    }
  }

  lemma {:induction false} MatchedGrows(keys: seq<string>, t: string, s: string, t': string, s': string)
    requires forall k :: Hit(k, t, s) ==> Hit(k, t', s')
    ensures |Matched(keys, t, s)| <= |Matched(keys, t', s')|
  {
    if keys != [] {
      MatchedGrows(keys[..|keys| - 1], t, s, t', s');
    }
  }

  /** Monotonicity: adding text before or after the title or the snippet never lowers the score. */
  lemma Monotone(title: string, snippet: string, tb: string, ta: string, sb: string, sa: string)
    ensures Score(title, snippet) <= Score(tb + title + ta, sb + snippet + sa)
  {
    LowerAppend(tb + title, ta);
    LowerAppend(tb, title);
    LowerAppend(sb + snippet, sa);
    LowerAppend(sb, snippet);
    forall k | Hit(k, title, snippet) ensures Hit(k, tb + title + ta, sb + snippet + sa) {
      if Includes(Lower(title), k) {
        IncludesInfix(Lower(tb), Lower(title), Lower(ta), k);
      } else {
        IncludesInfix(Lower(sb), Lower(snippet), Lower(sa), k);
      }
    }
    MatchedGrows(AllKeywords, title, snippet, tb + title + ta, sb + snippet + sa);
  }

  /** Overlapping phrases are counted separately: a text with "organic cotton" scores at least 40. */
  lemma OrganicCottonCountsTwice(title: string, snippet: string)
    requires Includes(Lower(title), "organic cotton") || Includes(Lower(snippet), "organic cotton")
    ensures Score(title, snippet) >= 2 * Increment
  {
    if Includes(Lower(title), "organic cotton") {
      OrganicCottonIncludesCotton(Lower(title));
    } else {
      OrganicCottonIncludesCotton(Lower(snippet));
    }
    ScoreCountsFoundPhrases(title, snippet);
    assert {"organic cotton", "cotton"} <= Found(title, snippet);
    SubsetCardinality({"organic cotton", "cotton"}, Found(title, snippet));
  }

  // ---------------------------------------------------------------------------
  // Worked examples
  // ---------------------------------------------------------------------------

  /** A match that can only start at the front of x + rest fails when the second characters differ. */
  lemma FrontMismatch(x: char, rest: string, k: string)
    requires |k| >= 2 && k[0] !in rest && |rest| > 0 && rest[0] != k[1]
    ensures !Includes([x] + rest, k)
  {
    MissingCharExcludes(rest, k, k[0]);
    assert ([x] + rest)[1..] == rest;
    if |k| <= |[x] + rest| {
      assert ([x] + rest)[..|k|][1] == rest[0];
    }
  }

  /** The phrases of keys found are exactly those of a known set. */
  lemma FoundInExactly(keys: seq<string>, title: string, snippet: string, found: set<string>)
    requires forall k :: k in keys ==> (Hit(k, title, snippet) <==> k in found)
    requires forall k :: k in found ==> k in keys
    ensures FoundIn(keys, title, snippet) == found
  {
  }

  /** When the phrases found are exactly those of a known set, the score follows from its size. */
  lemma ScoreFromHits(title: string, snippet: string, found: set<string>)
    requires forall k :: k in AllKeywords ==> (Hit(k, title, snippet) <==> k in found)
    requires forall k :: k in found ==> k in AllKeywords
    ensures Score(title, snippet) == Min(Increment * |found|, MaxScore)
  {
    FoundInExactly(AllKeywords, title, snippet, found);
    ScoreCountsFoundPhrases(title, snippet);
  }

  /** Phrases each paired with one of their characters that the text lacks are not in the text. */
  lemma MissesByChars(text: string, absent: map<string, char>)
    requires forall k :: k in absent ==> absent[k] in k && absent[k] !in text
    ensures forall k :: k in absent ==> !Includes(text, k)
  {
    forall k | k in absent ensures !Includes(text, k) {
      MissingCharExcludes(text, k, absent[k]);
    }
  }

  /** An empty text includes no phrase of the table. */
  lemma EmptyIncludesNoKeyword(text: string)
    requires text == ""
    ensures forall k :: k in AllKeywords ==> !Includes(text, k)
  {
    forall k | k in AllKeywords ensures !Includes(text, k) {
      assert |k| > 0;
    }
  }

  /** The phrases of the table that the text "organic cotton" does not include. */
  lemma OrganicCottonMisses(text: string)
    requires text == "organic cotton"
    ensures forall k :: k in AllKeywords && k !in {"organic cotton", "cotton"} ==> !Includes(text, k)
  {
    MissesByChars(text, map[
      "recyclable" := 'y', "recycled materials" := 'y', "zero waste" := 'z',
      "sustainable production" := 's', "eco-friendly manufacturing" := 'e', "carbon neutral" := 'b',
      "biodegradable" := 'b', "plastic-free" := 'p', "renewable" := 'e',
      "bamboo" := 'b', "hemp" := 'h', "silk" := 's', "wool" := 'w', "linen" := 'l', "wood" := 'w',
      "leather" := 'l']);
  }

  /** The phrase "organic cotton" on its own scores 40: it and "cotton" both match, nothing else does.
      (The texts are parameters so that the verifier does not unfold the search on literals.) */
  lemma OrganicCottonAloneScores40(title: string, snippet: string)
    requires title == "organic cotton" && snippet == ""
    ensures Score(title, snippet) == 40
  {
    LowerOfLowerCase(title);
    assert Lower(snippet) == "";
    EmptyIncludesNoKeyword(Lower(snippet));
    IncludesSelf(title);
    OrganicCottonIncludesCotton(title);
    OrganicCottonMisses(Lower(title));
    ScoreFromHits(title, snippet, {"organic cotton", "cotton"});
  }

  lemma LowerExampleTitleWords(a: string, b: string, c: string, d: string)
    requires a == "O" + "rganic " && b == "C" + "otton " && c == "T" + "ote, " && d == "R" + "ecyclable"
    ensures Lower(a) == "organic " && Lower(b) == "cotton " && Lower(c) == "tote, " && Lower(d) == "recyclable"
  {
    LowerAppend("O", "rganic ");
    LowerAppend("C", "otton ");
    LowerAppend("T", "ote, ");
    LowerAppend("R", "ecyclable");
    LowerOfLowerCase("rganic ");
    LowerOfLowerCase("otton ");
    LowerOfLowerCase("ote, ");
    LowerOfLowerCase("ecyclable");
    assert Lower("O") == "o" && Lower("C") == "c" && Lower("T") == "t" && Lower("R") == "r";
  }

  lemma ExampleTitleSpelling()
    ensures "organic " + "cotton " + "tote, " + "recyclable" == "organic cotton tote, recyclable"
  {
  }

  /** The lower-cased title of the mixed-case example. */
  lemma LowerExampleTitle(title: string)
    requires title == "Organic Cotton Tote, Recyclable"
    ensures Lower(title) == "organic cotton tote, recyclable"
  {
    var a, b, c, d := "O" + "rganic ", "C" + "otton ", "T" + "ote, ", "R" + "ecyclable";
    assert title == a + b + c + d;
    LowerAppend4(a, b, c, d);
    LowerExampleTitleWords(a, b, c, d);
    ExampleTitleSpelling();
  }

  /** "linen" is not in the example title, although the title has all of its letters. */
  lemma LinenAbsentFromExampleTitle(t: string)
    requires t == "organic cotton tote, recyclable"
    ensures !Includes(t, "linen")
  {
    assert t == "organic cotton tote, recyc" + "lable";
    if Includes(t, "linen") {
      SplitAtFirstChar("organic cotton tote, recyc", "lable", "linen");
      MissingCharExcludes("lable", "linen", 'i');
    }
  }

  /** "linen" is not in the example snippet, although the snippet has all of its letters. */
  lemma LinenAbsentFromExampleSnippet(s: string)
    requires s == "eco-friendly manufacturing"
    ensures !Includes(s, "linen")
  {
    assert s == "eco-friend" + ("l" + "y manufacturing");
    if Includes(s, "linen") {
      SplitAtFirstChar("eco-friend", "l" + "y manufacturing", "linen");
      FrontMismatch('l', "y manufacturing", "linen");
    }
  }

  /** The phrases found in the mixed-case example title, lower-cased. */
  lemma ExampleTitleHits(t: string)
    requires t == "organic cotton tote, recyclable"
    ensures Includes(t, "organic cotton") && Includes(t, "cotton") && Includes(t, "recyclable")
  {
    IncludesSelf("organic cotton");
    assert t == "" + "organic cotton" + " tote, recyclable";
    IncludesInfix("", "organic cotton", " tote, recyclable", "organic cotton");
    OrganicCottonIncludesCotton(t);
    IncludesSelf("recyclable");
    assert t == "organic cotton tote, " + "recyclable" + "";
    IncludesInfix("organic cotton tote, ", "recyclable", "", "recyclable");
  }

  /** The recycling and practice phrases not found in the lower-cased example title. */
  lemma ExampleTitleMissesGroups(t: string)
    requires t == "organic cotton tote, recyclable"
    ensures forall k :: k in Keywords(Recycling) + Keywords(Practices) && k != "recyclable" ==> !Includes(t, k)
  {
    MissesByChars(t, map[
      "recycled materials" := 's', "zero waste" := 'z',
      "sustainable production" := 's', "eco-friendly manufacturing" := 'f', "carbon neutral" := 'u']);
  }

  /** None of the impact phrases is in the lower-cased example title. */
  lemma ExampleTitleMissesImpact(t: string)
    requires t == "organic cotton tote, recyclable"
    ensures forall k :: k in Keywords(Impact) ==> !Includes(t, k)
  {
    MissesByChars(t, map["biodegradable" := 'd', "plastic-free" := 'p', "renewable" := 'w']);
  }

  /** The materials not named in the lower-cased example title: all but the two cotton phrases. */
  lemma ExampleTitleMissesMaterials(t: string)
    requires t == "organic cotton tote, recyclable"
    ensures forall k :: k in Keywords(Material) && k !in {"organic cotton", "cotton"} ==> !Includes(t, k)
  {
    MissesByChars(t, map[
      "bamboo" := 'm', "hemp" := 'h', "silk" := 's', "wool" := 'w', "wood" := 'w', "leather" := 'h']);
    LinenAbsentFromExampleTitle(t);
  }

  /** The phrases not found in the example snippet, apart from "linen" and those of the material group. */
  lemma ExampleSnippetMissesGroups(s: string)
    requires s == "eco-friendly manufacturing"
    ensures forall k :: (k in Keywords(Recycling) + Keywords(Practices) + Keywords(Impact)
                         && k != "eco-friendly manufacturing") ==> !Includes(s, k)
  {
    MissesByChars(s, map[
      "recyclable" := 'b', "recycled materials" := 's', "zero waste" := 'z',
      "sustainable production" := 's', "carbon neutral" := 'b', "biodegradable" := 'b',
      "plastic-free" := 'p', "renewable" := 'w']);
  }

  /** A text with a single copy of c does not include a phrase with two copies of c. */
  lemma SingleCopyExcludes(a: string, c: char, b: string, k: string)
    requires c !in a && c !in b && multiset(k)[c] >= 2
    ensures !Includes(a + [c] + b, k)
  {
    assert multiset(a + [c] + b) == multiset(a) + multiset([c]) + multiset(b);
    if Includes(a + [c] + b, k) {
      IncludesMultiset(a + [c] + b, k);
    }
  }

  /** Both cotton phrases have two letters t; the example snippet has only one. */
  lemma ExampleSnippetHasNoCotton(s: string)
    requires s == "eco-friendly manufacturing"
    ensures !Includes(s, "organic cotton") && !Includes(s, "cotton")
  {
    assert s == "eco-friendly manufac" + ['t'] + "uring";
    assert "cotton" == "co" + ['t'] + ['t'] + "on";
    SingleCopyExcludes("eco-friendly manufac", 't', "uring", "cotton");
    if Includes(s, "organic cotton") {
      OrganicCottonIncludesCotton(s);
    }
  }

  /** The example snippet names no material at all. */
  lemma ExampleSnippetMissesMaterials(s: string)
    requires s == "eco-friendly manufacturing"
    ensures forall k :: k in Keywords(Material) ==> !Includes(s, k)
  {
    MissesByChars(s, map[
      "bamboo" := 'b', "hemp" := 'h', "silk" := 's', "wool" := 'w', "wood" := 'w', "leather" := 'h']);
    LinenAbsentFromExampleSnippet(s);
    ExampleSnippetHasNoCotton(s);
  }

  /** How the per-text facts of the mixed-case example combine into its score. */
  lemma ExampleScoreFromPhrases(title: string, snippet: string, t: string, s: string)
    requires t == Lower(title) && s == Lower(snippet)
    requires Includes(t, "organic cotton") && Includes(t, "cotton") && Includes(t, "recyclable")
    requires Includes(s, "eco-friendly manufacturing")
    requires forall k :: k in Keywords(Recycling) + Keywords(Practices) && k != "recyclable" ==> !Includes(t, k)
    requires forall k :: k in Keywords(Impact) ==> !Includes(t, k)
    requires forall k :: k in Keywords(Material) && k !in {"organic cotton", "cotton"} ==> !Includes(t, k)
    requires forall k :: (k in Keywords(Recycling) + Keywords(Practices) + Keywords(Impact)
                          && k != "eco-friendly manufacturing") ==> !Includes(s, k)
    requires forall k :: k in Keywords(Material) ==> !Includes(s, k)
    ensures Score(title, snippet) == 80
  {
    ScoreFromHits(title, snippet, {"organic cotton", "cotton", "recyclable", "eco-friendly manufacturing"});
  }

  /** Title "Organic Cotton Tote, Recyclable" with snippet "eco-friendly manufacturing" scores 80:
      "organic cotton", "cotton", "recyclable" and "eco-friendly manufacturing" match. */
  lemma MixedCaseExampleScores80(title: string, snippet: string)
    requires title == "Organic Cotton Tote, Recyclable" && snippet == "eco-friendly manufacturing"
    ensures Score(title, snippet) == 80
  {
    LowerExampleTitle(title);
    LowerOfLowerCase(snippet);
    ExampleTitleHits(Lower(title));
    ExampleTitleMissesGroups(Lower(title));
    ExampleTitleMissesImpact(Lower(title));
    ExampleTitleMissesMaterials(Lower(title));
    IncludesSelf(Lower(snippet));
    ExampleSnippetMissesGroups(Lower(snippet));
    ExampleSnippetMissesMaterials(Lower(snippet));
    ExampleScoreFromPhrases(title, snippet, Lower(title), Lower(snippet));
  }
}
