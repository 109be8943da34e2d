/** `MonsterManager`: a registry of named prototypes that creates customised
    clones, and the `MonsterManagerError` it raises when creation fails. */
module Registry {
  import opened Results
  import opened Monsters

  /** The underlying reason a creation failed. */
  datatype Cause =
    | NotFound(name: string)
      /** The keyword overrides naming no declared field of the variant, or
          giving a field a value of the wrong kind. */
    | InvalidOverrides(keys: set<string>)

  /** `MonsterManagerError`, wrapping the cause of the failure. */
  datatype CreationError = CreationError(cause: Cause)

  const MessagePrefix := "Error creating monster: "

  /** The message of the underlying error. */
  function Describe(c: Cause): string
  {
    match c
    case NotFound(name) => "Prototype '" + name + "' not found."
    case InvalidOverrides(_) => "Invalid attribute override."
  }

  /** The message carried by a `MonsterManagerError`: the fixed prefix
      followed by the message of the error it wraps. */
  function Message(e: CreationError): (r: string)
    ensures |r| > |MessagePrefix| && r[..|MessagePrefix|] == MessagePrefix
    ensures r[|MessagePrefix|..] == Describe(e.cause)
  {
    MessagePrefix + Describe(e.cause)
  }

  /** The message identifies the failure: distinct missing names give
      distinct messages, and a missing name never reads like a rejected
      override. */
  lemma MessageDistinguishesFailures(a: string, b: string, keys: set<string>)
    ensures Message(CreationError(NotFound(a))) == Message(CreationError(NotFound(b))) ==> a == b
    ensures Message(CreationError(NotFound(a))) != Message(CreationError(InvalidOverrides(keys)))
  {
    var start := |MessagePrefix| + |"Prototype '"|;
    var ma := Message(CreationError(NotFound(a)));
    var mb := Message(CreationError(NotFound(b)));
    assert ma == MessagePrefix + "Prototype '" + a + "' not found.";
    assert mb == MessagePrefix + "Prototype '" + b + "' not found.";
    assert ma[start..start + |a|] == a;
    assert mb[start..start + |b|] == b;
    if ma == mb {
      assert |a| == |b|;
    }
    var mi := Message(CreationError(InvalidOverrides(keys)));
    assert ma[|MessagePrefix|] == 'P';
    assert mi[|MessagePrefix|] == 'I';
  }

  /** A `MonsterManager`, holding `monster_prototypes`. */
  datatype Manager = Manager(prototypes: map<string, Monster>) {

    /** `register_prototype(name, prototype)`: a map insert that replaces any
        earlier entry under `name` and leaves every other entry alone. */
    function Register(name: string, prototype: Monster): (r: Manager)
      ensures name in r.prototypes && r.prototypes[name] == prototype
      ensures r.prototypes.Keys == prototypes.Keys + {name}
      ensures forall other :: other != name && other in prototypes ==>
                other in r.prototypes && r.prototypes[other] == prototypes[other]
    {
      Manager(prototypes[name := prototype])
    }

    /** `create_monster(name, **attributes)`: looks the prototype up, clones
        it and applies the overrides. A missing name, or an override the
        variant does not accept, fails with a `MonsterManagerError`. */
    function Create(name: string, overrides: map<string, Value>): (r: Result<Monster, CreationError>)
      ensures name !in prototypes ==> r == Failure(CreationError(NotFound(name)))
      ensures r.Success? <==> name in prototypes && ValidOverrides(prototypes[name], overrides)
      ensures r.Success? ==> Customized(prototypes[name], overrides, r.value)
      ensures name in prototypes && !ValidOverrides(prototypes[name], overrides) ==>
                r.Failure? && r.error.cause.InvalidOverrides?
                && r.error.cause.keys != {} && r.error.cause.keys <= overrides.Keys
                && (forall key :: key in r.error.cause.keys ==>
                      !Accepts(prototypes[name], key, overrides[key]))
                && (forall key :: key in overrides && !Accepts(prototypes[name], key, overrides[key]) ==>
                      key in r.error.cause.keys)
    {
      if name in prototypes then
        var monster := Clone(prototypes[name]);
        if ValidOverrides(monster, overrides) then Success(Customize(monster, overrides))
        else Failure(CreationError(InvalidOverrides(Rejected(monster, overrides))))
      else
        Failure(CreationError(NotFound(name)))
    }
  }

  /** `MonsterManager()`: a manager with no prototypes, on which every
      creation fails as not found. */
  function NewManager(): (m: Manager)
    ensures forall name :: name !in m.prototypes
    ensures forall name, overrides :: m.Create(name, overrides) == Failure(CreationError(NotFound(name)))
  {
    Manager(map[])
  }

  /** `create_monster` as written: the prototype is cloned and the overrides
      are assigned one at a time, in whatever order the keyword arguments
      arrive. Validation of the overrides happens before the first
      assignment, so a rejected call assigns nothing. */
  method CreateMonster(manager: Manager, name: string, attributes: map<string, Value>)
    returns (r: Result<Monster, CreationError>)
    ensures r == manager.Create(name, attributes)
  {
    if name !in manager.prototypes {
      return Failure(CreationError(NotFound(name)));
    }
    var prototype := manager.prototypes[name];
    var monster := Clone(prototype);
    if !ValidOverrides(monster, attributes) {
      return Failure(CreationError(InvalidOverrides(Rejected(monster, attributes))));
    }
    var pending := attributes.Keys;
    while pending != {}
      invariant pending <= attributes.Keys
      invariant SameVariant(monster, prototype)
      invariant forall f :: Get(monster, f) ==
                  (if FieldName(f) in attributes && FieldName(f) !in pending
                   then Some(attributes[FieldName(f)]) else Get(prototype, f))
      decreases pending
    {
      var key :| key in pending;
      assert Accepts(prototype, key, attributes[key]);
      var field := ParseField(key).value;
      monster := SetAttr(monster, field, attributes[key]);
      pending := pending - {key};
    }
    CustomizedUnique(prototype, attributes, monster);
    r := Success(monster);
  }

  /** Without overrides, creation returns a value equal to the registered
      prototype. */
  lemma CreateWithoutOverrides(manager: Manager, name: string)
    requires name in manager.prototypes
    ensures manager.Create(name, map[]) == Success(manager.prototypes[name])
  {
    CustomizeNothing(manager.prototypes[name]);
  }

  /** Creation keeps the variant of the prototype. */
  lemma CreateKeepsVariant(manager: Manager, name: string, overrides: map<string, Value>)
    requires manager.Create(name, overrides).Success?
    ensures manager.Create(name, overrides).value.MonsterA? <==> manager.prototypes[name].MonsterA?
    ensures manager.Create(name, overrides).value.MonsterB? <==> manager.prototypes[name].MonsterB?
  {
  }

  /** A missing name fails with the fixed, prefixed message. */
  lemma CreateMissingMessage(manager: Manager, name: string, overrides: map<string, Value>)
    requires name !in manager.prototypes
    ensures manager.Create(name, overrides).Failure?
    ensures Message(manager.Create(name, overrides).error)
              == "Error creating monster: Prototype '" + name + "' not found."
  {
    var r := manager.Create(name, overrides);
    assert r == Failure(CreationError(NotFound(name)));
    assert Message(r.error) == MessagePrefix + ("Prototype '" + name + "' not found.");
  }

  /** After registering, creating under that name starts from the newly
      registered prototype. */
  lemma RegisterThenCreate(manager: Manager, name: string, prototype: Monster)
    ensures manager.Register(name, prototype).Create(name, map[]) == Success(prototype)
  {
    CreateWithoutOverrides(manager.Register(name, prototype), name);
  }

  /** Registering under one name leaves creation under every other name as it
      was. */
  lemma RegisterLeavesOthers(manager: Manager, name: string, prototype: Monster,
                             other: string, overrides: map<string, Value>)
    requires other != name
    ensures manager.Register(name, prototype).Create(other, overrides) == manager.Create(other, overrides)
  {
  }

  /** Re-registering a name replaces the prior prototype entirely. */
  lemma ReRegisterReplaces(manager: Manager, name: string, first: Monster, second: Monster)
    ensures manager.Register(name, first).Register(name, second) == manager.Register(name, second)
  {
  }
}
