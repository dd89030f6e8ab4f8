/**
 * What the flagd configuration builder's specification gives on the fixture data
 * of the flag service's integration test, stated as lemmas about concrete inputs.
 */
module FlagdScenarios {
  import opened Optional
  import opened FlagdConfig

  function F1(): Feature { Feature("ftr_1", "feature1", "Feature 1", Some("Test feature 1")) }
  function F2(): Feature { Feature("ftr_2", "feature2", "Feature 2", Some("Test feature 2")) }

  function TestStates(): seq<FeatureState>
  {
    [ FeatureState("fst_1", "ftr_1", "workspace", Some("workspace1"), true, F1()),
      FeatureState("fst_2", "ftr_2", "workspace", Some("workspace2"), false, F2()) ]
  }

  /**
   * Feature 1 has a workspace state holding true and feature 2 one holding false:
   * feature 1 comes out enabled with default variant "on", feature 2 disabled with "off".
   */
  lemma IntegrationTestExpectations()
    ensures FlagsAfter([F1(), F2()], TestStates()).Keys == {"feature1", "feature2"}
    ensures FlagsAfter([F1(), F2()], TestStates())["feature1"]
      == FlagEntry(Enabled, Variants(true, false), On)
    ensures FlagsAfter([F1(), F2()], TestStates())["feature2"]
      == FlagEntry(Disabled, Variants(true, false), Off)
  {
    FlagsAfterKeyed([F1(), F2()], TestStates());
    assert KeysOf([F1(), F2()]) == {"feature1", "feature2"} by {
      assert F1() in [F1(), F2()] && F2() in [F1(), F2()];
    }
    assert TestStates()[1..][0].feature.key == "feature2";
  }

  /**
   * A state with an unrecognised context type for feature 1 comes first and holds
   * false; the search skips it and the workspace state behind it decides.
   */
  lemma UnrecognisedContextSkipped()
    ensures FeatureStateOf("feature1",
      [FeatureState("fst_0", "ftr_1", "team", Some("team1"), false, F1())] + TestStates())
  {
  }
}
