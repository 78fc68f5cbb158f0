/**
 * The rewrite rules the normaliser applies to one Manabox row, stage by
 * stage, over four working strings: the card name, the edition (set
 * name), the collector number and the set code. Each stage is a function
 * here; the Converter module chains them in the source's order.
 */
module Rules {
  import opened Wrappers
  import opened Text
  import opened Overrides

  /** The four working strings of one row. */
  datatype Card = Card(name: string, edition: string, number: string, setCode: string)

  /** One element of the JSON array the Multiverse Bridge service returns. */
  datatype MvbCard = MvbCard(name: string, edition: string, collectorNumber: string)

  /** One error.log entry; the wording of the message is not modelled. */
  datatype LogEntry =
    | LookupFailed(row: nat, name: string, edition: string, scryfallId: string)
    | UnknownPromo(number: string, name: string)
    | UnfinityAttractions(setCode: string, name: string)
    | OldAlternateArt(setCode: string, name: string)

  /** The Python exceptions the row code can raise; each ends the run. */
  datatype Crash = IndexError | KeyError | ValueError

  /** What a stage hands on: the rewritten card, a logged skip, or a crash. */
  datatype Step = Next(card: Card) | Skip(entry: LogEntry) | Fault(crash: Crash)

  const Star: char := '\U{2605}'

  /** The letters Manabox appends to alternate printings. */
  const AltLetters: string := "abcdef"

  function Last(s: string): char
    requires s != []
  {
    s[|s| - 1]
  }

  function DropLast(s: string): (r: string)
    requires s != []
    ensures |r| == |s| - 1 && s == r + [Last(s)]
  {
    s[..|s| - 1]
  }

  /** Python's `s[:n]`. */
  function Take(s: string, n: nat): (r: string)
    ensures |r| == if |s| < n then |s| else n
    ensures StartsWith(s, r)
  {
    if |s| <= n then s else s[..n]
  }

  // ---------------------------------------------------------------- editions

  /**
   * The Manabox set names that Cardsphere spells differently, with
   * Cardsphere's spelling. Longer values are written as concatenations of
   * short pieces, which the verifier reads character by character.
   */
  const SetReplace: map<string, string> := map[
    "The List (Unfinity Foil Edition)" := "The List - Unfinity",
    "30th Anniversary Play Promos" := "30th " + "Anniversary " + "Promos",
    "Kaldheim Commander" := "Kaldheim " + "Commander " + "Decks",
    "Forgotten Realms Commander" := "Adventures " + "in the " + "Forgotten " + "Realms " + "Commander " + "Decks",
    "Midnight Hunt Commander" := "Innistrad: " + "Midnight " + "Hunt " + "Commander " + "Decks",
    "Crimson Vow Commander" := "Innistrad: " + "Crimson Vow " + "Commander " + "Decks",
    "Neon Dynasty Commander" := "Kamigawa: " + "Neon " + "Dynasty " + "Commander " + "Decks",
    "New Capenna Commander" := "Streets of " + "New Capenna " + "Commander",
    "The Brothers' War Retro Artifacts" := "The " + "Brothers' " + "War - " + "Retro " + "Artifacts",
    "Multiverse Legends" := "March of " + "the Machine " + "- Multiverse " + "Legends",
    "Tales of Middle-earth Commander" := "Lord of the " + "Rings: " + "Tales of " + "Middle-earth " + "- Commander",
    "The Lost Caverns of Ixalan Commander" := "The Lost " + "Caverns of " + "Ixalan - " + "Commander",
    "Secret Lair Drop" := "Secret Lair " + "Drop Series",
    "DCI Promos" := "WPN and " + "Gateway " + "Promos",
    "Duels of the Planeswalkers 2015 Promos" := "Duels of " + "the " + "Planeswalkers " + "Game Promos",
    "Love Your LGS" := "Love Your " + "Local Game " + "Store Promos",
    "Legends Italian" := "Legends"
  ]

  /** The synonym table: a key becomes exactly its mapped value, anything else is untouched. */
  function Synonym(synonyms: map<string, string>, edition: string): (r: string)
    ensures edition in synonyms ==> r == synonyms[edition]
    ensures edition !in synonyms ==> r == edition
  {
    if edition in synonyms then synonyms[edition] else edition
  }

  /**
   * The substring-triggered edition rewrites, in source order. A forced
   * value contains none of the later patterns, so the first of the three
   * forcing patterns that occurs decides the edition.
   */
  function PatternRewrites(edition: string): (r: string)
    ensures Contains(edition, "Convention Promo") ==> r == "Convention"
    ensures !Contains(edition, "Convention Promo") && Contains(edition, "Friday Night Magic") ==> r == "FNM Promos"
    ensures (!Contains(edition, "Convention Promo") && !Contains(edition, "Friday Night Magic") &&
             Contains(edition, "Wizards Play Network")) ==> r == "Miscellaneous Promos"
    ensures (!Contains(edition, "Convention Promo") && !Contains(edition, "Friday Night Magic") &&
             !Contains(edition, "Wizards Play Network")) ==>
      r == Replace(Replace(edition, "Theros Beyond Death", "Theros: Beyond Death"), "The Lord of the Rings", "Lord of the Rings")
    ensures (!Contains(edition, "Convention Promo") && !Contains(edition, "Friday Night Magic") &&
             !Contains(edition, "Wizards Play Network") && !Contains(edition, "Theros Beyond Death") &&
             !Contains(edition, "The Lord of the Rings")) ==> r == edition
  {
    var e1 := if Contains(edition, "Convention Promo") then "Convention" else edition;
    var e2 := if Contains(e1, "Friday Night Magic") then "FNM Promos" else e1;
    var e3 := if Contains(e2, "Wizards Play Network") then "Miscellaneous Promos" else e2;
    var e4 := if Contains(e3, "Theros Beyond Death") then Replace(e3, "Theros Beyond Death", "Theros: Beyond Death") else e3;
    ConventionIsFinal();
    FnmIsFinal();
    MiscellaneousIsFinal();
    if Contains(e4, "The Lord of the Rings") then Replace(e4, "The Lord of the Rings", "Lord of the Rings") else e4
  }

  /** "Convention" contains none of the patterns tested after it. */
  lemma ConventionIsFinal()
    ensures !Contains("Convention", "Friday Night Magic") && !Contains("Convention", "Wizards Play Network")
    ensures !Contains("Convention", "Theros Beyond Death") && !Contains("Convention", "The Lord of the Rings")
  {
    TooLongToContain("Convention", "Friday Night Magic");
    TooLongToContain("Convention", "Wizards Play Network");
    TooLongToContain("Convention", "Theros Beyond Death");
    TooLongToContain("Convention", "The Lord of the Rings");
  }

  /** "FNM Promos" contains none of the patterns tested after it. */
  lemma FnmIsFinal()
    ensures !Contains("FNM Promos", "Wizards Play Network") && !Contains("FNM Promos", "Theros Beyond Death")
    ensures !Contains("FNM Promos", "The Lord of the Rings")
  {
    TooLongToContain("FNM Promos", "Wizards Play Network");
    TooLongToContain("FNM Promos", "Theros Beyond Death");
    TooLongToContain("FNM Promos", "The Lord of the Rings");
  }

  /** "Miscellaneous Promos" contains none of the patterns tested after it. */
  lemma MiscellaneousIsFinal()
    ensures !Contains("Miscellaneous Promos", "Theros Beyond Death") && !Contains("Miscellaneous Promos", "The Lord of the Rings")
  {
    TooLongToContain("Miscellaneous Promos", "The Lord of the Rings");
    OneLongerNotContained("Miscellaneous Promos", "Theros Beyond Death");
  }

  /** A string one character longer than `sub` contains it only at position 0 or 1. */
  lemma OneLongerNotContained(s: string, sub: string)
    requires |s| == |sub| + 1 && sub != [] && s[0] != sub[0] && s[1] != sub[0]
    ensures !Contains(s, sub)
  {
    assert !StartsWith(s, sub) && !StartsWith(s[1..], sub);
    TooLongToContain(s[2..], sub);
  }

  lemma TooLongToContain(s: string, sub: string)
    requires |s| < |sub|
    ensures !Contains(s, sub)
  {
    if Contains(s, sub) { ContainsLength(s, sub); }
  }

  lemma FirstCharNotContained(s: string, sub: string)
    requires sub != [] && forall i :: 0 <= i <= |s| - |sub| ==> s[i] != sub[0]
    ensures !Contains(s, sub)
  {
    if Contains(s, sub) {
      ContainsWitness(s, sub);
    }
  }

  lemma MissingCharNotContained(s: string, sub: string, c: char)
    requires c in sub && c !in s
    ensures !Contains(s, sub)
  {
    if Contains(s, sub) { ContainsChars(s, sub); }
  }

  /** The edition rewrites: the synonym table first, then the substring rules. */
  function RewriteEdition(synonyms: map<string, string>, edition: string): string {
    PatternRewrites(Synonym(synonyms, edition))
  }

  // ----------------------------------------------------------------- lookup

  /**
   * Whether the row goes to the Multiverse Bridge service. `None` is the
   * IndexError `collectornumber[-1]` raises on an empty number once the
   * first three tests have failed.
   */
  function LookupDue(c: Card): (r: Option<bool>)
    ensures r.None? <==> c.number == [] && c.setCode != "PLST" && c.edition != "The List"
    ensures r == Some(true) <==>
      Contains(c.number, "-") || c.setCode == "PLST" || c.edition == "The List" || (c.number != [] && Last(c.number) in AltLetters)
  {
    if Contains(c.number, "-") || c.setCode == "PLST" || c.edition == "The List" then Some(true)
    else if c.number == [] then None
    else Some(Last(c.number) in AltLetters)
  }

  /** A non-empty reply: its first element replaces edition and number, and the name unless it is split. */
  function ApplyLookup(c: Card, hit: MvbCard): Card {
    Card(if Contains(c.name, "//") then c.name else hit.name,
         hit.edition,
         hit.collectorNumber,
         if Contains(hit.collectorNumber, "-") then Take(c.setCode, 3) else c.setCode)
  }

  // ---------------------------------------------------- promos and suffixes

  const OldAltArtSets: set<string> := {"FEM", "HML", "ALL", "CHR"}

  /** The promo branch, taken for a `P` set code or a star suffix; `None` is an unknown promo. */
  function PromoSuffix(c: Card): Option<Card>
    requires c.number != []
  {
    var last := Last(c.number);
    if last == 'p' then Some(c.(number := DropLast(c.number), edition := Replace(c.edition, " Promos", "") + " - Promo Pack"))
    else if last == 's' then Some(c.(number := DropLast(c.number), edition := Replace(c.edition, " Promos", "") + " - Prerelease Promos"))
    else if last == Star then Some(c.(number := DropLast(c.number)))
    else if last == 'F' then Some(c.(number := DropLast(c.number), edition := "30th Anniversary"))
    else if c.number[0] == 'A' && !Contains(c.number, "-") then Some(c.(number := c.number[1..]))
    else None
  }

  /**
   * The collector-number suffix resolver. A non-numeric number is
   * either resolved, or logged and skipped; a numeric one under a `P` set
   * code loses " Promos" from the edition and every non-digit.
   */
  function ResolveSuffix(c: Card): Step {
    if !IsNumeric(c.number) then
      if c.number == [] || c.setCode == [] then Fault(IndexError)
      else if c.setCode[0] == 'P' || Last(c.number) == Star then
        match PromoSuffix(c)
        case None => Skip(UnknownPromo(c.number, c.name))
        case Some(p) => Next(p.(setCode := c.setCode[1..]))
      else if Last(c.number) in AltLetters then
        if c.setCode == "BFZ" then Next(c.(number := DropLast(c.number), name := c.name + " (Full Art)"))
        else if c.setCode == "UNF" then Skip(UnfinityAttractions(c.setCode, c.name))
        else if c.setCode in OldAltArtSets then Skip(OldAlternateArt(c.setCode, c.name))
        else Skip(UnknownPromo(c.number, c.name))
      else Skip(UnknownPromo(c.number, c.name))
    else if c.setCode == [] then Fault(IndexError)
    else if c.setCode[0] == 'P' then Next(c.(edition := Replace(c.edition, " Promos", ""), number := DigitsOnly(c.number)))
    else Next(c)
  }

  /** The rows the suffix resolver drops, described case by case. */
  predicate SkippedBySuffix(c: Card) {
    !IsNumeric(c.number) && c.number != [] && c.setCode != [] &&
    var last := Last(c.number);
    var promo := c.setCode[0] == 'P' || last == Star;
    // unknown promo
    (promo && last !in {'p', 's', Star, 'F'} && !(c.number[0] == 'A' && !Contains(c.number, "-")))
    // UNF, FEM/HML/ALL/CHR and unlisted sets with an a-f suffix
    || (!promo && last in AltLetters && c.setCode != "BFZ")
    // any other non-numeric number
    || (!promo && last !in AltLetters)
  }

  /** The suffix resolver skips a row exactly in the listed cases, and each skip writes one log entry. */
  lemma SuffixSkipsExactly(c: Card)
    ensures ResolveSuffix(c).Skip? <==> SkippedBySuffix(c)
    ensures ResolveSuffix(c).Fault? <==> c.setCode == [] || c.number == []
    ensures ResolveSuffix(c).Skip? && ResolveSuffix(c).entry.UnfinityAttractions? <==>
      SkippedBySuffix(c) && c.setCode == "UNF" && Last(c.number) in AltLetters && Last(c.number) != Star
  {
  }

  /**
   * A promo suffix p, s, star or F is removed as exactly one character,
   * the set code loses its first character, and p and s retag the edition.
   */
  lemma PromoSuffixStripped(c: Card)
    requires !IsNumeric(c.number) && c.number != [] && c.setCode != []
    requires c.setCode[0] == 'P' || Last(c.number) == Star
    requires Last(c.number) in {'p', 's', Star, 'F'}
    ensures ResolveSuffix(c).Next?
    ensures var r := ResolveSuffix(c).card;
      c.number == r.number + [Last(c.number)] && c.setCode == [c.setCode[0]] + r.setCode && r.name == c.name
    ensures Last(c.number) == 'p' ==> ResolveSuffix(c).card.edition == Replace(c.edition, " Promos", "") + " - Promo Pack"
    ensures Last(c.number) == 's' ==> ResolveSuffix(c).card.edition == Replace(c.edition, " Promos", "") + " - Prerelease Promos"
    ensures Last(c.number) == Star ==> ResolveSuffix(c).card.edition == c.edition
    ensures Last(c.number) == 'F' ==> ResolveSuffix(c).card.edition == "30th Anniversary"
  {
  }

  /** A numeric number under a `P` set code keeps only ASCII digits; "Promos" goes from the edition. */
  lemma NumericPromoNumber(c: Card)
    requires IsNumeric(c.number) && c.setCode != [] && c.setCode[0] == 'P'
    ensures ResolveSuffix(c).Next?
    ensures AllDigits(ResolveSuffix(c).card.number)
    ensures AllDigits(c.number) ==> ResolveSuffix(c).card.number == c.number
    ensures ResolveSuffix(c).card.number == DigitsOnly(c.number)
    ensures ResolveSuffix(c).card.edition == Replace(c.edition, " Promos", "")
    ensures ResolveSuffix(c).card.setCode == c.setCode && ResolveSuffix(c).card.name == c.name
  {
  }

  /** Battle for Zendikar a-f printings are the full-art lands: suffix dropped, name tagged. */
  lemma FullArtZendikar(c: Card)
    requires !IsNumeric(c.number) && c.number != [] && c.setCode == "BFZ" && Last(c.number) in AltLetters
    ensures ResolveSuffix(c) == Next(Card(c.name + " (Full Art)", c.edition, DropLast(c.number), "BFZ"))
  {
  }

  /** A resale promo: an 'A'-prefixed number without "-" or a known suffix loses the 'A', and the set code its 'P'. */
  lemma ResalePromoStripped(c: Card)
    requires !IsNumeric(c.number) && c.number != [] && c.setCode != [] && c.setCode[0] == 'P'
    requires Last(c.number) !in {'p', 's', Star, 'F'} && c.number[0] == 'A' && !Contains(c.number, "-")
    ensures ResolveSuffix(c) == Next(Card(c.name, c.edition, c.number[1..], c.setCode[1..]))
  {
  }

  /** A number without promo or suffix trouble passes the suffix resolver untouched. */
  lemma PlainNumberUntouched(c: Card)
    requires IsNumeric(c.number) && c.setCode != [] && c.setCode[0] != 'P'
    ensures ResolveSuffix(c) == Next(c)
  {
  }

  // -------------------------------------------------------- names by number

  const BasicLands: seq<string> := ["plains", "island", "swamp", "mountain", "forest", "wastes"]

  /** Sets whose basic lands have a single printing each. */
  const SingleArtSets: set<string> := {"BBD", "IXL", "RIX", "RNA", "GRN", "UNF", "REX", "UNH", "UNG"}

  /** Basic lands carry their collector number in the name. */
  function BasicLand(c: Card): Step {
    if Lower(c.name) in BasicLands && c.setCode !in SingleArtSets then
      match ParseInt(c.number)
      case None => Fault(ValueError)
      case Some(n) =>
        var number := if n < 100 && c.setCode !in {"UND", "JMP"} then "0" + c.number else c.number;
        var name := if number == "262" && c.name == "Plains" then c.name else c.name + " (#" + number + ")";
        Next(c.(name := name, number := number))
    else Next(c)
  }

  /**
   * For a basic land outside the single-art sets: one "0" is prepended
   * below 100 (except in UND and JMP), which keeps the number's value, and
   * the number is appended to the name except for Plains 262.
   */
  lemma BasicLandNumbered(c: Card, n: nat)
    requires Lower(c.name) in BasicLands && c.setCode !in SingleArtSets
    requires ParseInt(c.number) == Some(n)
    ensures BasicLand(c).Next?
    ensures var r := BasicLand(c).card;
      r.edition == c.edition && r.setCode == c.setCode &&
      r.number == (if n < 100 && c.setCode != "UND" && c.setCode != "JMP" then "0" + c.number else c.number) &&
      ParseInt(r.number) == Some(n) &&
      r.name == (if r.number == "262" && c.name == "Plains" then c.name else c.name + " (#" + r.number + ")")
  {
    ParseIntLeadingZero(c.number);
  }

  /** The basic-land rule never skips; it crashes exactly on a basic land outside the single-art sets whose number `int()` rejects. */
  lemma BasicLandCrashes(c: Card)
    ensures !BasicLand(c).Skip?
    ensures BasicLand(c).Fault? <==> Lower(c.name) in BasicLands && c.setCode !in SingleArtSets && ParseInt(c.number).None?
    ensures BasicLand(c).Fault? ==> BasicLand(c).crash == ValueError
  {
  }

  /** Names that are not basic lands, and lands of the single-art sets, pass the basic-land rule untouched. */
  lemma NonLandUntouched(c: Card)
    requires Lower(c.name) !in BasicLands || c.setCode in SingleArtSets
    ensures BasicLand(c) == Next(c)
  {
  }

  /** Reprints that Cardsphere tells apart by collector number. */
  predicate NumberedReprint(name: string, setCode: string) {
    (name in {"Command Tower", "Sonic Screwdriver"} && setCode == "WHO")
    || (name in {"Arcane Signet", "Mind Stone", "Command Tower", "Commander's Sphere", "Sol Ring",
                 "Talisman of Dominance", "Wayfarer's Bauble"} && setCode == "40K")
    || (Contains(name, "Guildgate") && setCode == "GRN")
    || (Contains(name, "Snow-Covered") && setCode == "KHM")
    || (name == "Sol Ring" && setCode == "LTC")
  }

  function Reprint(c: Card): Card {
    if NumberedReprint(c.name, c.setCode) then c.(name := c.name + " (#" + c.number + ")") else c
  }

  /** The reprint rule tags exactly the listed reprints with their number and changes nothing else. */
  lemma ReprintTagsName(c: Card)
    ensures Reprint(c).edition == c.edition && Reprint(c).number == c.number && Reprint(c).setCode == c.setCode
    ensures NumberedReprint(c.name, c.setCode) <==> Reprint(c).name == c.name + " (#" + c.number + ")"
    ensures !NumberedReprint(c.name, c.setCode) <==> Reprint(c).name == c.name
  {
  }

  // ------------------------------------------------------ cosmetic name steps

  /** Sets whose two-faced and split cards go by their first name only. */
  const FrontNameSets: set<string> := {"DKA", "SOI", "XLN", "BOT", "NEO", "AFC", "VOW", "MID", "DBL",
                                       "CLB", "MOM", "MOC", "CMM", "WOE", "WOC", "WHO", "LCI", "LCC"}

  /** Keep the stripped first name of a split card in the listed sets. */
  function SplitName(c: Card): Card {
    if Contains(c.name, "//") && c.setCode in FrontNameSets then c.(name := Strip(BeforeFirst(c.name, "//"))) else c
  }

  /** After the split-name rule a card of the listed sets has no "//" left, and its name is a piece of the old one. */
  lemma SplitNameTruncates(c: Card)
    requires c.setCode in FrontNameSets
    ensures !Contains(SplitName(c).name, "//")
    ensures Contains(c.name, "//") ==> SplitName(c).name == Strip(BeforeFirst(c.name, "//"))
    ensures SplitName(c).edition == c.edition && SplitName(c).number == c.number && SplitName(c).setCode == c.setCode
  {
    if Contains(c.name, "//") {
      StripKeepsAbsent(BeforeFirst(c.name, "//"), "//");
    }
  }

  /** The split-name rule leaves a name without "//", and every card of an unlisted set, as it was. */
  lemma SplitNameKeepsOthers(c: Card)
    ensures !Contains(c.name, "//") || c.setCode !in FrontNameSets ==> SplitName(c) == c
  {
  }

  /** Drop double quotes, widen Unfinity's five-underscore blank to eight. */
  function Cosmetic(c: Card): (r: Card)
    ensures '"' !in r.name
    ensures r.edition == c.edition && r.number == c.number && r.setCode == c.setCode
  {
    var unquoted := Replace(c.name, "\"", "");
    ReplaceRemovesChar(c.name, '"', "");
    var name := if Contains(unquoted, "_____") then Replace(unquoted, "_____", "________") else unquoted;
    c.(name := name)
  }

  /** The cosmetic rule changes only names with a quote or a five-underscore blank. */
  lemma CosmeticKeepsPlainNames(c: Card)
    requires '"' !in c.name && !Contains(c.name, "_____")
    ensures Cosmetic(c) == c
  {
    CosmeticKeepsQuoteless(c.name);
  }

  /**
   * Every five-underscore blank becomes eight underscores: a quoteless name
   * made of underscore-free pieces joined by blanks (such as
   * "_____ _____ _____ Trespasser") comes out as the same pieces joined by
   * wide blanks.
   */
  lemma CosmeticWidensBlanks(pieces: seq<string>, c: Card)
    requires c.name == Join(pieces, "_____")
    requires '"' !in c.name
    requires forall i | 0 <= i < |pieces| :: '_' !in pieces[i]
    ensures Cosmetic(c).name == Join(pieces, "________")
  {
    CosmeticKeepsQuoteless(c.name);
    ReplaceJoin(pieces);
  }

  /** Replacing the blank in pieces joined by it joins them by the replacement. */
  lemma {:induction false} ReplaceJoin(pieces: seq<string>)
    requires forall i | 0 <= i < |pieces| :: '_' !in pieces[i]
    ensures Replace(Join(pieces, "_____"), "_____", "________") == Join(pieces, "________")
    decreases |pieces|
  {
    if |pieces| == 1 {
      FirstCharNotContained(pieces[0], "_____");
    } else if |pieces| > 1 {
      var rest := Join(pieces[1..], "_____");
      ReplaceAfterPlainPrefix(pieces[0], "_____" + rest, "_____", "________");
      assert StartsWith("_____" + rest, "_____") && ("_____" + rest)[5..] == rest;
      ReplaceJoin(pieces[1..]);
      assert Join(pieces, "_____") == pieces[0] + ("_____" + rest);
    }
  }

  /** Removing quotes from a quoteless name changes nothing. */
  lemma CosmeticKeepsQuoteless(name: string)
    requires '"' !in name
    ensures Replace(name, "\"", "") == name
  {
    MissingCharNotContained(name, "\"", '"');
  }

  /** A prefix that never starts the pattern is copied through by `Replace`. */
  lemma {:induction false} ReplaceAfterPlainPrefix(prefix: string, rest: string, pat: string, repl: string)
    requires pat != [] && pat[0] !in prefix
    ensures Replace(prefix + rest, pat, repl) == prefix + Replace(rest, pat, repl)
    decreases |prefix|
  {
    if prefix != [] {
      var s := prefix + rest;
      assert s[0] == prefix[0];
      assert s[1..] == prefix[1..] + rest;
      ReplaceAfterPlainPrefix(prefix[1..], rest, pat, repl);
      assert Replace(s, pat, repl) == [prefix[0]] + (prefix[1..] + Replace(rest, pat, repl));
      assert [prefix[0]] + prefix[1..] == prefix;
    } else {
      assert prefix + rest == rest;
    }
  }

  // --------------------------------------------------------------- overrides

  /** The names.csv entries of the card's set code. */
  function NameStage(names: Table, c: Card): (r: Card)
    ensures r.number == c.number && r.setCode == c.setCode
  {
    if c.setCode in names then
      var (name, edition) := NameOverride(names[c.setCode], c.number, c.name, c.edition);
      c.(name := name, edition := edition)
    else c
  }

  /** The editions.csv ranges of the card's set code. */
  function RangeStage(editions: Table, c: Card): Step {
    if c.setCode in editions then
      match RangeOverride(editions[c.setCode], c.number, c.edition)
      case None => Fault(ValueError)
      case Some(edition) => Next(c.(edition := edition))
    else Next(c)
  }

  /**
   * A set code without editions.csv entries passes unchanged; otherwise the
   * scan crashes exactly when `RangeOverride` does, and changes at most the
   * edition.
   */
  lemma RangeStageFacts(editions: Table, c: Card)
    ensures c.setCode !in editions ==> RangeStage(editions, c) == Next(c)
    ensures !RangeStage(editions, c).Skip?
    ensures RangeStage(editions, c).Fault? <==>
      c.setCode in editions && RangeOverride(editions[c.setCode], c.number, c.edition).None?
    ensures RangeStage(editions, c).Fault? ==> RangeStage(editions, c).crash == ValueError
    ensures RangeStage(editions, c).Next? ==>
      var d := RangeStage(editions, c).card;
      d.name == c.name && d.number == c.number && d.setCode == c.setCode
  {
  }

  /** Tokens and sticker sheets are dropped without a log entry. */
  predicate Keep(c: Card) {
    !Contains(c.name, "Token") && !Contains(c.edition, "Tokens") && !Contains(c.edition, "Unfinity Sticker Sheets")
  }
}
