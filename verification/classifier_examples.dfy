/** Worked cases of the keyword classifier: sample descriptions, each with
    the keyword groups it rules out before the one that decides. A keyword
    is ruled out by one of its characters, or one pair of its adjacent
    characters, that never occurs in the lowered text. */
module ClassifierExamples {
  import opened IssueTypes
  import opened Text
  import opened Classifier
  import opened SampleTexts

  /** Any electrical keyword wins, since electrical is tried first. */
  lemma ElectricalKeywordWins(description: string, k: int)
    requires 0 <= k < |Groups[0].keywords| && Contains(Lower(description), Groups[0].keywords[k])
    ensures Detect(description) == Detection(Electrical, Medium, "Maintenance")
  {
    assert FirstMatching(Lower(description), 0);
  }

  /** A description mentioning both water and wifi, and no electrical
      keyword, is a plumbing issue: plumbing is tried before network. */
  lemma WaterBeatsWifi(description: string)
    requires Contains(Lower(description), "water") && Contains(Lower(description), "wifi")
    requires !GroupMatches(Groups[0], Lower(description))
    ensures Detect(description) == Detection(Plumbing, High, "Maintenance")
  {
    assert Groups[1].keywords[0] == "water";
    assert FirstMatching(Lower(description), 1);
  }

  /** Matching is by substring, not by word: "flight" contains "light". */
  lemma FlightIsElectrical()
    ensures Detect("flight") == Detection(Electrical, Medium, "Maintenance")
  {
    assert Lower("flight") == "flight";
    assert OccursAt("flight", 1, "light");
    ElectricalKeywordWins("flight", 1);
  }

  lemma StableNotGroup0()
    ensures !GroupMatches(Groups[0], StableText)
  {
    GroupRuledOut(Groups[0], StableText, [MissingChar(0), MissingChar(2), MissingChar(3), MissingChar(0), MissingChar(1)]);
  }

  lemma StableNotGroup1()
    ensures !GroupMatches(Groups[1], StableText)
  {
    GroupRuledOut(Groups[1], StableText, [MissingChar(0), MissingChar(3), MissingChar(2), MissingChar(0), MissingChar(0)]);
  }

  lemma StableNotGroup2()
    ensures !GroupMatches(Groups[2], StableText)
  {
    GroupRuledOut(Groups[2], StableText, [MissingChar(0), MissingChar(0), MissingChar(0), MissingChar(0), MissingChar(0)]);
  }

  /** Matching is by substring, not by word: "stable" contains "table". */
  lemma StableExample()
    ensures Detect("stable") == Detection(Furniture, Low, "Maintenance")
  {
    StableLowered();
    StableNotGroup0();
    StableNotGroup1();
    StableNotGroup2();
    StableHasTable();
    assert Contains(StableText, Groups[3].keywords[2]);
    assert FirstMatching(StableText, 3);
  }

  lemma WifiNotGroup0()
    ensures !GroupMatches(Groups[0], WifiText)
  {
    GroupRuledOut(Groups[0], WifiText, [MissingPair(0), MissingChar(2), MissingChar(3), MissingChar(0), MissingChar(4)]);
  }

  lemma WifiNotGroup1()
    ensures !GroupMatches(Groups[1], WifiText)
  {
    GroupRuledOut(Groups[1], WifiText, [MissingPair(0), MissingChar(3), MissingChar(2), MissingChar(0), MissingPair(0)]);
  }

  lemma WifiExample()
    ensures Detect("WiFi is down in the library") == Detection(Network, High, "IT")
  {
    WifiLowered();
    WifiNotGroup0();
    WifiNotGroup1();
    WifiHasWifi();
    assert Contains(WifiText, Groups[2].keywords[0]);
    assert FirstMatching(WifiText, 2);
  }

  lemma CleaningNotGroup0()
    ensures !GroupMatches(Groups[0], CleaningText)
  {
    GroupRuledOut(Groups[0], CleaningText, [MissingChar(0), MissingPair(0), MissingPair(0), MissingChar(0), MissingChar(1)]);
  }

  lemma CleaningNotGroup1()
    ensures !GroupMatches(Groups[1], CleaningText)
  {
    GroupRuledOut(Groups[1], CleaningText, [MissingChar(0), MissingChar(3), MissingChar(2), MissingChar(0), MissingPair(0)]);
  }

  lemma CleaningNotGroup2()
    ensures !GroupMatches(Groups[2], CleaningText)
  {
    GroupRuledOut(Groups[2], CleaningText, [MissingChar(0), MissingPair(1), MissingChar(3), MissingChar(3), MissingChar(0)]);
  }

  lemma CleaningNotGroup3()
    ensures !GroupMatches(Groups[3], CleaningText)
  {
    GroupRuledOut(Groups[3], CleaningText, [MissingPair(0), MissingChar(3), MissingChar(2), MissingPair(0), MissingChar(0)]);
  }

  lemma CleaningExample()
    ensures Detect("The room needs cleaning") == Detection(Cleanliness, Medium, "Housekeeping")
  {
    CleaningLowered();
    CleaningNotGroup0();
    CleaningNotGroup1();
    CleaningNotGroup2();
    CleaningNotGroup3();
    CleaningHasClean();
    assert Contains(CleaningText, Groups[4].keywords[0]);
    assert FirstMatching(CleaningText, 4);
  }

  lemma WaterTapNotGroup0()
    ensures !GroupMatches(Groups[0], WaterTapText)
  {
    GroupRuledOut(Groups[0], WaterTapText, [MissingChar(0), MissingPair(0), MissingChar(3), MissingPair(0), MissingChar(4)]);
  }

  lemma WaterTapExample()
    ensures Detect("The water tap is leaking in the washroom") == Detection(Plumbing, High, "Maintenance")
  {
    WaterTapLowered();
    WaterTapNotGroup0();
    WaterTapHasWater();
    assert Contains(WaterTapText, Groups[1].keywords[0]);
    assert FirstMatching(WaterTapText, 1);
  }

  lemma NothingMatchesNotGroup0()
    ensures !GroupMatches(Groups[0], NothingMatchesText)
  {
    GroupRuledOut(Groups[0], NothingMatchesText, [MissingChar(0), MissingChar(0), MissingChar(1), MissingChar(0), MissingPair(0)]);
  }

  lemma NothingMatchesNotGroup1()
    ensures !GroupMatches(Groups[1], NothingMatchesText)
  {
    GroupRuledOut(Groups[1], NothingMatchesText, [MissingPair(0), MissingChar(0), MissingChar(2), MissingChar(0), MissingPair(0)]);
  }

  lemma NothingMatchesNotGroup2()
    ensures !GroupMatches(Groups[2], NothingMatchesText)
  {
    GroupRuledOut(Groups[2], NothingMatchesText, [MissingChar(2), MissingPair(1), MissingPair(0), MissingChar(3), MissingChar(0)]);
  }

  lemma NothingMatchesNotGroup3()
    ensures !GroupMatches(Groups[3], NothingMatchesText)
  {
    GroupRuledOut(Groups[3], NothingMatchesText, [MissingPair(1), MissingPair(0), MissingChar(2), MissingPair(0), MissingPair(0)]);
  }

  lemma NothingMatchesNotGroup4()
    ensures !GroupMatches(Groups[4], NothingMatchesText)
  {
    GroupRuledOut(Groups[4], NothingMatchesText, [MissingChar(1), MissingPair(0), MissingChar(3), MissingPair(0), MissingChar(3)]);
  }

  lemma NothingMatchesNotGroup5()
    ensures !GroupMatches(Groups[5], NothingMatchesText)
  {
    GroupRuledOut(Groups[5], NothingMatchesText, [MissingChar(3), MissingChar(3), MissingChar(3), MissingPair(0), MissingChar(0)]);
  }

  lemma NothingMatchesExample()
    ensures Detect("Nothing matches any keyword") == Detection(Other, Medium, "General")
  {
    NothingMatchesLowered();
    NothingMatchesNotGroup0();
    NothingMatchesNotGroup1();
    NothingMatchesNotGroup2();
    NothingMatchesNotGroup3();
    NothingMatchesNotGroup4();
    NothingMatchesNotGroup5();
  }

  lemma WaterAndWifiNotGroup0()
    ensures !GroupMatches(Groups[0], WaterAndWifiText)
  {
    GroupRuledOut(Groups[0], WaterAndWifiText, [MissingPair(0), MissingChar(0), MissingChar(1), MissingChar(0), MissingChar(0)]);
  }

  /** Overlapping keywords resolve to the earlier group: plumbing is tried before network. */
  lemma WaterAndWifiExample()
    ensures Detect("water and wifi") == Detection(Plumbing, High, "Maintenance")
  {
    WaterAndWifiLowered();
    WaterAndWifiNotGroup0();
    WaterAndWifiHasWater();
    assert Contains(WaterAndWifiText, Groups[1].keywords[0]);
    assert FirstMatching(WaterAndWifiText, 1);
  }
}
