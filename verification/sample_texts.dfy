/** The sample descriptions used in the classifier's worked cases: their
    lowered forms and the keyword each one contains. Each fact is a lemma of
    its own, which keeps every proof small. */
module SampleTexts {
  import opened Text

  const StableText := "stable"

  lemma StableLowered()
    ensures Lower("stable") == StableText
  {
  }

  lemma StableHasTable()
    ensures Contains(StableText, "table")
  {
    assert StableText[1..6] == "table";
    assert OccursAt(StableText, 1, "table");
  }

  const WifiText := "wifi is down in the library"

  lemma WifiLowered()
    ensures Lower("WiFi is down in the library") == WifiText
  {
  }

  lemma WifiHasWifi()
    ensures Contains(WifiText, "wifi")
  {
    assert WifiText[0..4] == "wifi";
    assert OccursAt(WifiText, 0, "wifi");
  }

  const CleaningText := "the room needs cleaning"

  lemma CleaningLowered()
    ensures Lower("The room needs cleaning") == CleaningText
  {
  }

  lemma CleaningHasClean()
    ensures Contains(CleaningText, "clean")
  {
    assert CleaningText[15..20] == "clean";
    assert OccursAt(CleaningText, 15, "clean");
  }

  const WaterTapText := "the water tap is leaking in the washroom"

  lemma WaterTapRawHalves() ensures "The water tap is leaking in the washroom" == "The water tap " + "is leaking in the washroom" { }
  lemma WaterTapLoweredHalves() ensures WaterTapText == "the water tap " + "is leaking in the washroom" { }
  lemma WaterTapFirstHalfLowered() ensures Lower("The water tap ") == "the water tap " { }

  lemma WaterTapLowered()
    ensures Lower("The water tap is leaking in the washroom") == WaterTapText
  {
    WaterTapRawHalves();
    WaterTapLoweredHalves();
    WaterTapFirstHalfLowered();
    LowerConcat("The water tap ", "is leaking in the washroom");
    LowerFixedIffNoUpper("is leaking in the washroom");
  }

  lemma WaterTapHasWater()
    ensures Contains(WaterTapText, "water")
  {
    WaterTapLoweredHalves();
    assert WaterTapText[4..9] == "water";
    assert OccursAt(WaterTapText, 4, "water");
  }

  const NothingMatchesText := "nothing matches any keyword"

  lemma NothingMatchesLowered()
    ensures Lower("Nothing matches any keyword") == NothingMatchesText
  {
  }

  const WaterAndWifiText := "water and wifi"

  lemma WaterAndWifiLowered()
    ensures Lower("water and wifi") == WaterAndWifiText
  {
  }

  lemma WaterAndWifiHasWater()
    ensures Contains(WaterAndWifiText, "water")
  {
    assert WaterAndWifiText[0..5] == "water";
    assert OccursAt(WaterAndWifiText, 0, "water");
  }
}
