/**
 * Why every value of the synonym table survives the substring rules: each
 * value misses at least one character of every pattern, except the Lord of
 * the Rings value, where the one 'T' is followed by 'a' rather than 'h'.
 * The character facts are stated a few keys at a time so that each lemma
 * reads only a handful of literals.
 */
module SynonymTable {
  import opened Text
  import opened Rules

  /**
   * A listed Manabox set name ends up exactly as the table spells it: the
   * substring rules that run after the table leave every value alone.
   */
  lemma SynonymIsFinal(k: string)
    requires k in SetReplace
    ensures RewriteEdition(SetReplace, k) == SetReplace[k]
  {
    if k == "New Capenna Commander" || k == "The Lost Caverns of Ixalan Commander" || k == "DCI Promos" ||
       k == "Duels of the Planeswalkers 2015 Promos" || k == "Love Your LGS" || k == "Legends Italian" {
      WithoutBIsFinal(k);
    } else if k == "30th Anniversary Play Promos" || k == "The Brothers' War Retro Artifacts" || k == "Secret Lair Drop" ||
              k == "Crimson Vow Commander" || k == "Neon Dynasty Commander" {
      WithoutDOrHIsFinal(k);
    } else if k == "The List (Unfinity Foil Edition)" || k == "Kaldheim Commander" {
      WithoutROrTIsFinal(k);
    } else if k == "Forgotten Realms Commander" || k == "Midnight Hunt Commander" || k == "Multiverse Legends" {
      WithoutPOrTIsFinal(k);
    } else {
      SynonymKeys(k);
      LordOfTheRingsIsFinal(k);
    }
  }

  /** The keys of the table, one by one. */
  lemma SynonymKeys(k: string)
    requires k in SetReplace
    ensures k == "The List (Unfinity Foil Edition)" || k == "30th Anniversary Play Promos" || k == "Kaldheim Commander" ||
            k == "Forgotten Realms Commander" || k == "Midnight Hunt Commander" || k == "Crimson Vow Commander" ||
            k == "Neon Dynasty Commander" || k == "New Capenna Commander" || k == "The Brothers' War Retro Artifacts" ||
            k == "Multiverse Legends" || k == "Tales of Middle-earth Commander" || k == "The Lost Caverns of Ixalan Commander" ||
            k == "Secret Lair Drop" || k == "DCI Promos" || k == "Duels of the Planeswalkers 2015 Promos" ||
            k == "Love Your LGS" || k == "Legends Italian"
  {
  }

  lemma LordOfTheRingsIsFinal(k: string)
    requires k == "Tales of Middle-earth Commander"
    ensures PatternRewrites(SetReplace[k]) == SetReplace[k]
  {
    LordOfTheRingsLetters();
    LordOfTheRingsMissesTitle();
    LordOfTheRingsCommanderIsFinal(SetReplace[k]);
  }

  lemma WithoutBIsFinal(k: string)
    requires k == "New Capenna Commander" || k == "The Lost Caverns of Ixalan Commander" || k == "DCI Promos" ||
             k == "Duels of the Planeswalkers 2015 Promos" || k == "Love Your LGS" || k == "Legends Italian"
    ensures PatternRewrites(SetReplace[k]) == SetReplace[k]
  {
    if k == "New Capenna Commander" || k == "The Lost Caverns of Ixalan Commander" || k == "DCI Promos" {
      MissingLetters1();
    } else {
      MissingLetters2();
    }
    PatternFree(SetReplace[k], 'i', 'i', 'i', 'B', 'i');
  }

  lemma WithoutDOrHIsFinal(k: string)
    requires k == "30th Anniversary Play Promos" || k == "The Brothers' War Retro Artifacts" || k == "Secret Lair Drop" ||
             k == "Crimson Vow Commander" || k == "Neon Dynasty Commander"
    ensures PatternRewrites(SetReplace[k]) == SetReplace[k]
  {
    if k == "Crimson Vow Commander" || k == "Neon Dynasty Commander" {
      MissingLetters4();
      PatternFree(SetReplace[k], 'P', 'h', 'P', 'h', 'h');
    } else {
      MissingLetters3();
      PatternFree(SetReplace[k], 'C', 'd', 'd', 'd', 'd');
    }
  }

  lemma WithoutROrTIsFinal(k: string)
    requires k == "The List (Unfinity Foil Edition)" || k == "Kaldheim Commander"
    ensures PatternRewrites(SetReplace[k]) == SetReplace[k]
  {
    MissingLetters5();
    if k == "The List (Unfinity Foil Edition)" {
      PatternFree(SetReplace[k], 'r', 'r', 'r', 'r', 'r');
    } else {
      PatternFree(SetReplace[k], 't', 't', 't', 't', 't');
    }
  }

  lemma WithoutPOrTIsFinal(k: string)
    requires k == "Forgotten Realms Commander" || k == "Midnight Hunt Commander" || k == "Multiverse Legends"
    ensures PatternRewrites(SetReplace[k]) == SetReplace[k]
  {
    if k == "Forgotten Realms Commander" {
      MissingLetters6();
      PatternFree(SetReplace[k], 'P', 'y', 'P', 'y', 'L');
    } else if k == "Midnight Hunt Commander" {
      MissingLetters7();
      PatternFree(SetReplace[k], 'P', 'F', 'P', 'T', 'T');
    } else {
      MissingLetters8();
      PatternFree(SetReplace[k], 'C', 'N', 'N', 'T', 'T');
    }
  }

  // Which characters each table value lacks.

  lemma MissingLetters1()
    ensures var e := SetReplace["New Capenna Commander"]; forall i | 0 <= i < |e| :: e[i] != 'B' && e[i] != 'i'
    ensures var e := SetReplace["The Lost Caverns of Ixalan Commander"]; forall i | 0 <= i < |e| :: e[i] != 'B' && e[i] != 'i'
    ensures var e := SetReplace["DCI Promos"]; forall i | 0 <= i < |e| :: e[i] != 'B' && e[i] != 'i'
  {
  }

  lemma MissingLetters2()
    ensures var e := SetReplace["Duels of the Planeswalkers 2015 Promos"]; forall i | 0 <= i < |e| :: e[i] != 'B' && e[i] != 'i'
    ensures var e := SetReplace["Love Your LGS"]; forall i | 0 <= i < |e| :: e[i] != 'B' && e[i] != 'i'
    ensures var e := SetReplace["Legends Italian"]; forall i | 0 <= i < |e| :: e[i] != 'B' && e[i] != 'i'
  {
  }

  lemma MissingLetters3()
    ensures var e := SetReplace["30th Anniversary Play Promos"]; forall i | 0 <= i < |e| :: e[i] != 'C' && e[i] != 'd'
    ensures var e := SetReplace["The Brothers' War Retro Artifacts"]; forall i | 0 <= i < |e| :: e[i] != 'C' && e[i] != 'd'
    ensures var e := SetReplace["Secret Lair Drop"]; forall i | 0 <= i < |e| :: e[i] != 'C' && e[i] != 'd'
  {
  }

  lemma MissingLetters4()
    ensures var e := SetReplace["Crimson Vow Commander"]; forall i | 0 <= i < |e| :: e[i] != 'P' && e[i] != 'h'
    ensures var e := SetReplace["Neon Dynasty Commander"]; forall i | 0 <= i < |e| :: e[i] != 'P' && e[i] != 'h'
  {
  }

  lemma MissingLetters5()
    ensures var e := SetReplace["The List (Unfinity Foil Edition)"]; forall i | 0 <= i < |e| :: e[i] != 'r'
    ensures var e := SetReplace["Kaldheim Commander"]; forall i | 0 <= i < |e| :: e[i] != 't'
  {
  }

  lemma MissingLetters6()
    ensures var e := SetReplace["Forgotten Realms Commander"]; forall i | 0 <= i < |e| :: e[i] != 'L' && e[i] != 'P' && e[i] != 'y'
  {
  }

  lemma MissingLetters7()
    ensures var e := SetReplace["Midnight Hunt Commander"]; forall i | 0 <= i < |e| :: e[i] != 'F' && e[i] != 'P' && e[i] != 'T'
  {
  }

  lemma MissingLetters8()
    ensures var e := SetReplace["Multiverse Legends"]; forall i | 0 <= i < |e| :: e[i] != 'C' && e[i] != 'N' && e[i] != 'T'
  {
  }

  lemma LordOfTheRingsLetters()
    ensures var e := SetReplace["Tales of Middle-earth Commander"]; forall i | 0 <= i < |e| :: e[i] != 'v' && e[i] != 'F' && e[i] != 'W' && e[i] != 'B'
  {
  }

  /** An edition missing a character of each of the five patterns passes the substring rules unchanged. */
  lemma PatternFree(e: string, a: char, b: char, c: char, d: char, f: char)
    requires a in "Convention Promo" && a !in e
    requires b in "Friday Night Magic" && b !in e
    requires c in "Wizards Play Network" && c !in e
    requires d in "Theros Beyond Death" && d !in e
    requires f in "The Lord of the Rings" && f !in e
    ensures PatternRewrites(e) == e
  {
    MissingCharNotContained(e, "Convention Promo", a);
    MissingCharNotContained(e, "Friday Night Magic", b);
    MissingCharNotContained(e, "Wizards Play Network", c);
    MissingCharNotContained(e, "Theros Beyond Death", d);
    MissingCharNotContained(e, "The Lord of the Rings", f);
  }

  // The Lord of the Rings value holds every character of "The Lord of the Rings".

  /** Its only 'T' is followed by 'a', so the title pattern does not occur in it. */
  lemma LordOfTheRingsMissesTitle()
    ensures !Contains(SetReplace["Tales of Middle-earth Commander"], "The Lord of the Rings")
  {
    var rest := "ales of " + "Middle-earth " + "- Commander";
    TalesTail(rest);
    assert SetReplace["Tales of Middle-earth Commander"] == ("Lord of the " + "Rings: ") + (['T'] + rest);
    NotContainedAfterHead('T', rest, "The Lord of the Rings");
    NotContainedAcross("Lord of the " + "Rings: ", ['T'] + rest, "The Lord of the Rings");
  }

  lemma TalesTail(rest: string)
    requires rest == "ales of " + "Middle-earth " + "- Commander"
    ensures 'T' !in rest && rest[0] == 'a'
  {
  }

  lemma LordOfTheRingsCommanderIsFinal(e: string)
    requires forall i | 0 <= i < |e| :: e[i] != 'v' && e[i] != 'F' && e[i] != 'W' && e[i] != 'B'
    requires !Contains(e, "The Lord of the Rings")
    ensures PatternRewrites(e) == e
  {
    MissingCharNotContained(e, "Convention Promo", 'v');
    MissingCharNotContained(e, "Friday Night Magic", 'F');
    MissingCharNotContained(e, "Wizards Play Network", 'W');
    MissingCharNotContained(e, "Theros Beyond Death", 'B');
  }

  /** A pattern whose first character is missing from `x` can only occur in `x + y` inside `y`. */
  lemma NotContainedAcross(x: string, y: string, sub: string)
    requires sub != [] && sub[0] !in x && !Contains(y, sub)
    ensures !Contains(x + y, sub)
  {
    if Contains(x + y, sub) {
      ContainsWitness(x + y, sub);
      var i: nat :| OccursAt(x + y, sub, i);
      assert (x + y)[i] == sub[0];
      assert i >= |x|;
      assert (x + y)[i..i + |sub|] == y[i - |x|..i - |x| + |sub|];
      ContainsAt(y, sub, i - |x|);
    }
  }

  /** A pattern cannot occur in `[c] + rest` when its first character is missing from `rest` and its second is not `rest[0]`. */
  lemma NotContainedAfterHead(c: char, rest: string, sub: string)
    requires |sub| >= 2 && rest != [] && rest[0] != sub[1] && sub[0] !in rest
    ensures !Contains([c] + rest, sub)
  {
    assert ([c] + rest)[1..] == rest;
    assert ([c] + rest)[1] != sub[1];
    MissingCharNotContained(rest, sub, sub[0]);
  }
}
