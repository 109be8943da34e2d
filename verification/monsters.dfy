/** The concrete prototypes `MonsterA` and `MonsterB`, their attributes, the
    deep copy `clone`, and attribute assignment restricted to declared fields. */
module Monsters {
  import opened Results

  /** A value passed as a keyword override: the prototypes hold numbers and
      text only. */
  datatype Value = IntValue(i: int) | TextValue(s: string)

  /** The attributes the two prototype classes declare in their constructors. */
  datatype Field = Health | AttackPower | Speed | SpecialAbility

  /** `MonsterA(health, attack_power, speed)` and
      `MonsterB(health, attack_power, speed, special_ability)`. */
  datatype Monster =
    | MonsterA(health: int, attackPower: int, speed: int)
    | MonsterB(health: int, attackPower: int, speed: int, specialAbility: string)

  /** The attribute name under which a field is stored and overridden. */
  function FieldName(f: Field): string
  {
    match f
    case Health => "health"
    case AttackPower => "attack_power"
    case Speed => "speed"
    case SpecialAbility => "special_ability"
  }

  /** Resolves a keyword name to the declared field it denotes, if any. */
  function ParseField(key: string): (r: Option<Field>)
    ensures r.Some? ==> FieldName(r.value) == key
    ensures r.None? ==> forall f :: FieldName(f) != key
  {
    if key == "health" then Some(Health)
    else if key == "attack_power" then Some(AttackPower)
    else if key == "speed" then Some(Speed)
    else if key == "special_ability" then Some(SpecialAbility)
    else None
  }

  /** Attribute names and fields are in one-to-one correspondence. */
  lemma ParseFieldName(f: Field)
    ensures ParseField(FieldName(f)) == Some(f)
  {
    match f
    case Health =>
    case AttackPower =>
    case Speed =>
    case SpecialAbility =>
  }

  /** Whether the variant of `m` declares field `f`: both declare the three
      numbers, only `MonsterB` declares the special ability. */
  predicate Declares(m: Monster, f: Field)
  {
    f != SpecialAbility || m.MonsterB?
  }

  /** Whether `v` has the kind of value field `f` holds. */
  predicate Fits(f: Field, v: Value)
  {
    if f == SpecialAbility then v.TextValue? else v.IntValue?
  }

  /** Reads a declared attribute; `None` for a field the variant lacks. */
  function Get(m: Monster, f: Field): (r: Option<Value>)
    ensures r.Some? <==> Declares(m, f)
    ensures r.Some? ==> Fits(f, r.value)
  {
    match f
    case Health => Some(IntValue(m.health))
    case AttackPower => Some(IntValue(m.attackPower))
    case Speed => Some(IntValue(m.speed))
    case SpecialAbility =>
      if m.MonsterB? then Some(TextValue(m.specialAbility)) else None
  }

  predicate SameVariant(m: Monster, n: Monster)
  {
    m.MonsterA? <==> n.MonsterA?
  }

  /** A monster is determined by its variant and its declared attributes. */
  lemma AttributesDetermineMonster(m: Monster, n: Monster)
    requires SameVariant(m, n)
    requires forall f :: Get(m, f) == Get(n, f)
    ensures m == n
  {
    assert Get(m, Health) == Get(n, Health);
    assert Get(m, AttackPower) == Get(n, AttackPower);
    assert Get(m, Speed) == Get(n, Speed);
    assert Get(m, SpecialAbility) == Get(n, SpecialAbility);
  }

  /** `clone`: a deep copy. Every attribute is an int or a string, so the copy
      is a field-by-field rebuild of the same variant. */
  function Clone(m: Monster): (r: Monster)
    ensures SameVariant(r, m)
    ensures forall f :: Get(r, f) == Get(m, f)
    ensures r == m
  {
    match m
    case MonsterA(h, a, s) => MonsterA(h, a, s)
    case MonsterB(h, a, s, x) => MonsterB(h, a, s, x)
  }

  /** `setattr(monster, name, value)` for a declared field and a value of the
      field's kind. */
  function SetAttr(m: Monster, f: Field, v: Value): (r: Monster)
    requires Declares(m, f) && Fits(f, v)
    ensures SameVariant(r, m)
    ensures Get(r, f) == Some(v)
    ensures forall g :: g != f ==> Get(r, g) == Get(m, g)
  {
    match f
    case Health => m.(health := v.i)
    case AttackPower => m.(attackPower := v.i)
    case Speed => m.(speed := v.i)
    case SpecialAbility => m.(specialAbility := v.s)
  }

  /** Whether the override `key = v` names a field of `m`'s variant and gives
      it a value of the right kind. */
  predicate Accepts(m: Monster, key: string, v: Value)
  {
    ParseField(key).Some? && Declares(m, ParseField(key).value)
    && Fits(ParseField(key).value, v)
  }

  /** Whether every keyword override is accepted by `m`. */
  predicate ValidOverrides(m: Monster, overrides: map<string, Value>)
  {
    forall key :: key in overrides ==> Accepts(m, key, overrides[key])
  }

  /** The keyword overrides that `m` does not accept. */
  function Rejected(m: Monster, overrides: map<string, Value>): (r: set<string>)
    ensures r <= overrides.Keys
    ensures forall key :: key in r ==> !Accepts(m, key, overrides[key])
    ensures forall key :: key in overrides && !Accepts(m, key, overrides[key]) ==> key in r
    ensures r == {} <==> ValidOverrides(m, overrides)
  {
    var r := set key | key in overrides && !Accepts(m, key, overrides[key]);
    assert forall key :: key in overrides && !Accepts(m, key, overrides[key]) ==> key in r;
    r
  }

  /** The result `n` of customising `p` with `overrides`: the same variant,
      every overridden attribute holding its override, every other attribute
      holding the prototype's value. */
  ghost predicate Customized(p: Monster, overrides: map<string, Value>, n: Monster)
  {
    && SameVariant(n, p)
    && forall f :: Get(n, f) ==
         (if FieldName(f) in overrides then Some(overrides[FieldName(f)]) else Get(p, f))
  }

  function IntOr(overrides: map<string, Value>, f: Field, default: int): int
  {
    var key := FieldName(f);
    if key in overrides && overrides[key].IntValue? then overrides[key].i else default
  }

  function TextOr(overrides: map<string, Value>, f: Field, default: string): string
  {
    var key := FieldName(f);
    if key in overrides && overrides[key].TextValue? then overrides[key].s else default
  }

  /** The customised clone, built attribute by attribute. */
  function Customize(p: Monster, overrides: map<string, Value>): (r: Monster)
    requires ValidOverrides(p, overrides)
    ensures Customized(p, overrides, r)
  {
    assert forall f :: FieldName(f) in overrides ==>
      Accepts(p, FieldName(f), overrides[FieldName(f)]);
    match p
    case MonsterA(h, a, s) =>
      MonsterA(IntOr(overrides, Health, h), IntOr(overrides, AttackPower, a),
               IntOr(overrides, Speed, s))
    case MonsterB(h, a, s, x) =>
      MonsterB(IntOr(overrides, Health, h), IntOr(overrides, AttackPower, a),
               IntOr(overrides, Speed, s), TextOr(overrides, SpecialAbility, x))
  }

  /** There is exactly one customised clone, so `Customized` is a complete
      specification of `Customize`. */
  lemma CustomizedUnique(p: Monster, overrides: map<string, Value>, n: Monster)
    requires ValidOverrides(p, overrides)
    ensures Customized(p, overrides, n) <==> n == Customize(p, overrides)
  {
    if Customized(p, overrides, n) {
      var c := Customize(p, overrides);
      assert forall f :: Get(n, f) == Get(c, f);
      AttributesDetermineMonster(n, c);
    }
  }

  /** Customising with no overrides yields the prototype itself. */
  lemma CustomizeNothing(p: Monster)
    ensures ValidOverrides(p, map[])
    ensures Customize(p, map[]) == p
  {
    AttributesDetermineMonster(Customize(p, map[]), p);
  }
}
