/**
 * An installed app as the drawer sees it, and its search relevance score:
 * a sum of fixed weights, one per way the query can match the app.
 */
module AppSearch {

  import opened Text

  /** `AppInfo` without its icon; times are epoch milliseconds. */
  datatype AppInfo = AppInfo(
    packageName: string,
    name: string,
    isSystemApp: bool := false,
    installTime: int := 0,
    lastUsedTime: int := 0,
    launchCount: int := 0)

  /** The score weights, in the order they are tried. */
  const ExactWeight := 100
  const PrefixWeight := 50
  const ContainsWeight := 25
  const AcronymWeight := 15
  const PackageWeight := 5
  const FrequentWeight := 5

  /** More launches than this earn the frequent-use boost. */
  const FrequentLaunches := 10

  /** The lowercased first character of each piece, for the pieces that have one. */
  function Initials(pieces: seq<string>): (r: string)
    ensures |r| <= |pieces|
    ensures forall k :: 0 <= k < |r| ==>
      exists j :: 0 <= j < |pieces| && pieces[j] != [] && r[k] == LowerChar(pieces[j][0])
  {
    if pieces == [] then ""
    else
      var rest := Initials(pieces[1..]);
      assert forall j :: 1 <= j < |pieces| ==> pieces[1..][j - 1] == pieces[j];
      (if pieces[0] == [] then "" else [LowerChar(pieces[0][0])]) + rest
  }

  /** The initials of two lists of pieces, one after the other. */
  lemma {:induction false} InitialsConcat(a: seq<string>, b: seq<string>)
    ensures Initials(a + b) == Initials(a) + Initials(b)
  {
    if a != [] {
      var ab := a + b;
      assert ab[0] == a[0] && ab[1..] == a[1..] + b;
      InitialsConcat(a[1..], b);
      var head := if a[0] == [] then "" else [LowerChar(a[0][0])];
      assert Initials(ab) == head + Initials(ab[1..]);
      assert Initials(a) == head + Initials(a[1..]);
    } else {
      assert a + b == b;
    }
  }

  /**
   * `split(" ").mapNotNull { it.firstOrNull()?.lowercase() }.joinToString("")`:
   * one lowercased initial per word, so no letter of it is upper case and none
   * is a space.
   */
  function Acronym(name: string): (r: string)
    ensures forall k :: 0 <= k < |r| ==> r[k] != ' ' && LowerChar(r[k]) == r[k]
  {
    var pieces := Split(name, (c: char) => c == ' ');
    SplitPiecesHaveNoSeparator(name, (c: char) => c == ' ');
    var r := Initials(pieces);
    forall k | 0 <= k < |r| ensures r[k] != ' ' && LowerChar(r[k]) == r[k] {
      var j :| 0 <= j < |pieces| && pieces[j] != [] && r[k] == LowerChar(pieces[j][0]);
      assert pieces[j][0] != ' ';
    }
    r
  }

  /** The acronym of two parts joined by a space is the acronym of each part, in turn. */
  lemma AcronymOfJoined(a: string, b: string)
    ensures Acronym(a + " " + b) == Acronym(a) + Acronym(b)
  {
    var isSep := (c: char) => c == ' ';
    SplitAtSeparator(a, ' ', b, isSep);
    InitialsConcat(Split(a, isSep), Split(b, isSep));
  }

  /** A name without spaces has its lowercased first letter as acronym. */
  lemma OneWordAcronym(name: string)
    requires name != [] && forall k :: 0 <= k < |name| ==> name[k] != ' '
    ensures Acronym(name) == [LowerChar(name[0])]
  {
    SplitWithoutSeparator(name, (c: char) => c == ' ');
  }

  /** A two-word name has the lowercased first letters of both words as acronym. */
  lemma TwoWordAcronym(first: string, second: string)
    requires first != [] && second != []
    requires forall k :: 0 <= k < |first| ==> first[k] != ' '
    requires forall k :: 0 <= k < |second| ==> second[k] != ' '
    ensures Acronym(first + " " + second) == [LowerChar(first[0]), LowerChar(second[0])]
  {
    var name := first + " " + second;
    assert name[|first|] == ' ';
    forall k | 0 <= k < |name| && k != |first| ensures name[k] != ' ' {
      if k > |first| {
        assert name[k] == second[k - |first| - 1];
      }
    }
    SplitAtOneSeparator(name, (c: char) => c == ' ', |first|);
    assert name[..|first|] == first;
    assert name[|first| + 1..] == second;
    assert [first, second][1..] == [second];
    assert Initials([second]) == [LowerChar(second[0])] + Initials([]);
  }

  function Bonus(earned: bool, weight: int): int {
    if earned then weight else 0
  }

  /**
   * The score `calculateSearchScore` computes, as one sum: zero for a blank
   * query, otherwise between 0 and the sum of all weights.
   */
  function SearchScore(app: AppInfo, query: string): (r: int)
    ensures IsBlank(query) ==> r == 0
    ensures 0 <= r <= ExactWeight + PrefixWeight + ContainsWeight + AcronymWeight + PackageWeight + FrequentWeight
  {
    if IsBlank(query) then 0
    else
      var q, n, p := Lower(query), Lower(app.name), Lower(app.packageName);
      Bonus(n == q, ExactWeight)
        + Bonus(StartsWith(n, q), PrefixWeight)
        + Bonus(Contains(n, q), ContainsWeight)
        + Bonus(Contains(Acronym(app.name), q), AcronymWeight)
        + Bonus(Contains(p, q), PackageWeight)
        + Bonus(app.launchCount > FrequentLaunches, FrequentWeight)
  }

  /** Any sum of earned weights is a multiple of 5. */
  lemma BonusesAreFives(exact: bool, prefix: bool, contained: bool, acronym: bool, package: bool, frequent: bool)
    ensures (Bonus(exact, ExactWeight) + Bonus(prefix, PrefixWeight) + Bonus(contained, ContainsWeight)
             + Bonus(acronym, AcronymWeight) + Bonus(package, PackageWeight) + Bonus(frequent, FrequentWeight)) % 5 == 0
  {
    var fives := Bonus(exact, 20) + Bonus(prefix, 10) + Bonus(contained, 5)
      + Bonus(acronym, 3) + Bonus(package, 1) + Bonus(frequent, 1);
    assert Bonus(exact, ExactWeight) + Bonus(prefix, PrefixWeight) + Bonus(contained, ContainsWeight)
      + Bonus(acronym, AcronymWeight) + Bonus(package, PackageWeight) + Bonus(frequent, FrequentWeight) == 5 * fives;
  }

  /** Every weight is a multiple of 5, so every score is. */
  lemma ScoreIsMultipleOfFive(app: AppInfo, query: string)
    ensures SearchScore(app, query) % 5 == 0
  {
    if !IsBlank(query) {
      var q, n, p := Lower(query), Lower(app.name), Lower(app.packageName);
      BonusesAreFives(n == q, StartsWith(n, q), Contains(n, q), Contains(Acronym(app.name), q),
                      Contains(p, q), app.launchCount > FrequentLaunches);
    }
  }

  /** `calculateSearchScore`: the score accumulated step by step. */
  method CalculateSearchScore(app: AppInfo, query: string) returns (score: int)
    ensures score == SearchScore(app, query)
  {
    if IsBlank(query) {
      return 0;
    }
    var lowerQuery := Lower(query);
    var lowerName := Lower(app.name);
    var lowerPackage := Lower(app.packageName);
    score := 0;
    if lowerName == lowerQuery {
      score := score + ExactWeight;
    }
    if StartsWith(lowerName, lowerQuery) {
      score := score + PrefixWeight;
    }
    if Contains(lowerName, lowerQuery) {
      score := score + ContainsWeight;
    }
    var acronym := Acronym(app.name);
    if Contains(acronym, lowerQuery) {
      score := score + AcronymWeight;
    }
    if Contains(lowerPackage, lowerQuery) {
      score := score + PackageWeight;
    }
    if app.launchCount > FrequentLaunches {
      score := score + FrequentWeight;
    }
  }

  /** A case-insensitive exact name match also earns the prefix and contains weights. */
  lemma ExactMatchScore(app: AppInfo, query: string)
    requires !IsBlank(query) && Lower(app.name) == Lower(query)
    ensures SearchScore(app, query) >= ExactWeight + PrefixWeight + ContainsWeight
  {
    ContainsSelf(Lower(app.name));
  }

  /** A name-prefix match also earns the contains weight. */
  lemma PrefixMatchScore(app: AppInfo, query: string)
    requires !IsBlank(query) && StartsWith(Lower(app.name), Lower(query))
    ensures SearchScore(app, query) >= PrefixWeight + ContainsWeight
  {
    PrefixIsContained(Lower(app.name), Lower(query));
  }

  /**
   * An app scores above zero exactly when the query is not blank and the
   * name, the acronym or the package contains it, or the app is launched
   * often; the last holds even when nothing in the text matches.
   */
  lemma PositiveScoreIff(app: AppInfo, query: string)
    ensures SearchScore(app, query) > 0 <==>
      !IsBlank(query)
      && (|| Contains(Lower(app.name), Lower(query))
          || Contains(Acronym(app.name), Lower(query))
          || Contains(Lower(app.packageName), Lower(query))
          || app.launchCount > FrequentLaunches)
  {
    var q, n := Lower(query), Lower(app.name);
    if n == q {
      ContainsSelf(n);
    }
    if StartsWith(n, q) {
      PrefixIsContained(n, q);
    }
  }
}
