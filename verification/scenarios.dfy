/** The demonstration in `prototype.py`: two prototypes registered, four
    customised monsters created from them, and a name never registered. */
module Scenarios {
  import opened Results
  import opened Monsters
  import opened Registry

  /** The manager after both demonstration prototypes are registered. */
  function DemoManager(): (m: Manager)
    ensures m.prototypes.Keys == {"MonsterA", "MonsterB"}
    ensures m.prototypes["MonsterA"] == MonsterA(100, 10, 5)
    ensures m.prototypes["MonsterB"] == MonsterB(150, 15, 7, "Fireball")
  {
    NewManager()
      .Register("MonsterA", MonsterA(100, 10, 5))
      .Register("MonsterB", MonsterB(150, 15, 7, "Fireball"))
  }

  /** `health=80` on the `MonsterA` prototype gives (80, 10, 5). */
  lemma ScenarioMonsterA()
    ensures DemoManager().Create("MonsterA", map["health" := IntValue(80)])
              == Success(MonsterA(80, 10, 5))
  {
    var ov := map["health" := IntValue(80)];
    CustomizedUnique(MonsterA(100, 10, 5), ov, MonsterA(80, 10, 5));
  }

  /** `special_ability="Ice Beam", speed=8` on the `MonsterB` prototype gives
      (150, 15, 8, "Ice Beam"). */
  lemma ScenarioMonsterB()
    ensures DemoManager().Create("MonsterB",
              map["special_ability" := TextValue("Ice Beam"), "speed" := IntValue(8)])
              == Success(MonsterB(150, 15, 8, "Ice Beam"))
  {
    var ov := map["special_ability" := TextValue("Ice Beam"), "speed" := IntValue(8)];
    CustomizedUnique(MonsterB(150, 15, 7, "Fireball"), ov, MonsterB(150, 15, 8, "Ice Beam"));
  }

  /** `health=120, attack_power=12, speed=6` on the `MonsterA` prototype
      replaces every attribute. */
  lemma ScenarioMonsterC()
    ensures DemoManager().Create("MonsterA",
              map["health" := IntValue(120), "attack_power" := IntValue(12), "speed" := IntValue(6)])
              == Success(MonsterA(120, 12, 6))
  {
    var ov := map["health" := IntValue(120), "attack_power" := IntValue(12), "speed" := IntValue(6)];
    CustomizedUnique(MonsterA(100, 10, 5), ov, MonsterA(120, 12, 6));
  }

  /** `health=180, attack_power=20, special_ability="Thunderbolt"` on the
      `MonsterB` prototype gives (180, 20, 7, "Thunderbolt"). */
  lemma ScenarioMonsterD()
    ensures DemoManager().Create("MonsterB",
              map["health" := IntValue(180), "attack_power" := IntValue(20),
                  "special_ability" := TextValue("Thunderbolt")])
              == Success(MonsterB(180, 20, 7, "Thunderbolt"))
  {
    var ov := map["health" := IntValue(180), "attack_power" := IntValue(20),
                  "special_ability" := TextValue("Thunderbolt")];
    CustomizedUnique(MonsterB(150, 15, 7, "Fireball"), ov, MonsterB(180, 20, 7, "Thunderbolt"));
  }

  /** A name that was never registered fails with the prefixed not-found
      message. */
  lemma ScenarioUnregistered()
    ensures DemoManager().Create("MonsterC", map[]).Failure?
    ensures Message(DemoManager().Create("MonsterC", map[]).error)
              == "Error creating monster: Prototype 'MonsterC' not found."
  {
    var m := DemoManager();
    assert "MonsterC" !in {"MonsterA", "MonsterB"};
    assert "MonsterC" !in m.prototypes;
    var r := m.Create("MonsterC", map[]);
    assert r == Failure(CreationError(NotFound("MonsterC")));
    assert Message(r.error) == MessagePrefix + "Prototype '" + "MonsterC" + "' not found.";
  }

  /** Under the strict override policy, `special_ability` on a `MonsterA`
      and a text value for `speed` are both rejected, and nothing is
      created. */
  lemma ScenarioRejectedOverrides()
    ensures DemoManager().Create("MonsterA",
              map["special_ability" := TextValue("Fireball"), "speed" := TextValue("fast"),
                  "health" := IntValue(90)])
              == Failure(CreationError(InvalidOverrides({"special_ability", "speed"})))
  {
    var ov := map["special_ability" := TextValue("Fireball"), "speed" := TextValue("fast"),
                  "health" := IntValue(90)];
    var p := MonsterA(100, 10, 5);
    assert !Accepts(p, "special_ability", ov["special_ability"]);
    assert !Accepts(p, "speed", ov["speed"]);
    assert Accepts(p, "health", ov["health"]);
    assert Rejected(p, ov) == {"special_ability", "speed"};
  }
}
