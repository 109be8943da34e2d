# Prototype monster registry

A Dafny model of `prototype.py`, a small implementation of the Prototype creational
pattern. Two concrete prototypes exist. `MonsterA` holds health, attack power and
speed. `MonsterB` adds a special ability. Each can `clone` itself as a deep copy.
A `MonsterManager` keeps a dictionary of named prototypes. `register_prototype`
inserts into the dictionary. `create_monster` looks a name up, clones the prototype,
assigns keyword overrides to the clone and returns it. A failure is re-raised as a
`MonsterManagerError` whose message starts with `Error creating monster: `.

Layout:

- `results.dfy`: module `Results`, with `Option` and a `Result` for operations that raise.
- `monsters.dfy`: module `Monsters`. It holds the two prototype variants as one immutable
  `Monster` datatype, the declared `Field`s and their attribute names, `clone`, and
  attribute assignment. It also gives two views of a customised clone and proves them
  equivalent: a field-by-field reference predicate (`Customized`) and a constructive
  function (`Customize`).
- `registry.dfy`: module `Registry`. It models `MonsterManager` as an immutable value
  over `map<string, Monster>`, with `Register` and `Create`. The error is a
  `CreationError` wrapping a `Cause`. `CreateMonster` is a method that follows the
  source's loop: it assigns the overrides one key at a time, in any order, and is
  proved equal to `Create`.
- `scenarios.dfy`: module `Scenarios`. It holds the demonstration's concrete values as
  lemmas.

Modelling decisions:

- Deep copy is structural. Every attribute is an int or a string, so a clone is a
  field-by-field rebuild of the same variant. With value datatypes, a clone cannot
  share state with its prototype or with another clone.
- Overrides are `map<string, Value>`, keyed by attribute name like the `**attributes`
  dictionary. Its keys are distinct, so the order of assignment cannot matter.
  `CreateMonster` picks keys in an arbitrary order and still returns `Create`'s result.
- Strict override policy (a deliberate divergence from the source): an override is
  accepted only if its key names a field the variant declares and its value has that
  field's kind (int for the numbers, text for the special ability). If any override is
  rejected, creation fails with `InvalidOverrides(keys)` listing every rejected key, and
  nothing is created. The source's `setattr` would instead add an undeclared attribute,
  or store a value of any type.
- `create_monster` leaves the registry unchanged by construction. `Create` is a function
  of an immutable `Manager` value and returns only a monster or an error.

## Model

| member | source | states |
|---|---|---|
| `Monsters.Clone` | prototype.py:17-42 | the clone has the receiver's variant and every attribute of the receiver, and so is equal to it |
| `Monsters.Get` | prototype.py:19-36 | a field can be read exactly when the variant declares it, and its value has the field's kind |
| `Monsters.ParseField` | prototype.py:32-36 | a keyword resolves to a field exactly when it is that field's attribute name |
| `Monsters.ParseFieldName` | prototype.py:32-36 | every field's attribute name resolves back to that field |
| `Monsters.AttributesDetermineMonster` | prototype.py:17-36 | two monsters of the same variant with the same declared attributes are equal |
| `Monsters.SetAttr` | prototype.py:67-68 | assigning a declared field stores the value there, keeps the variant, and leaves every other attribute unchanged |
| `Monsters.Rejected` | prototype.py:67-68 | lists exactly the overrides the variant does not accept: every listed key is rejected and every rejected key is listed; the list is empty exactly when all are accepted |
| `Monsters.Customize` | prototype.py:64-68 | every overridden attribute holds its override, every other attribute keeps the prototype's value, and the variant is kept |
| `Monsters.CustomizedUnique` | prototype.py:64-68 | the field-by-field description of a customised clone has exactly one solution, the constructed clone |
| `Monsters.CustomizeNothing` | prototype.py:64-70 | with no overrides the customised clone equals the prototype |
| `Registry.MessageDistinguishesFailures` | prototype.py:72-74 | the wrapped message identifies the failure: two missing names with the same message are the same name, and a not-found message never equals a rejected-override message |
| `Registry.Manager.Register` | prototype.py:50-54 | the name maps to the new prototype, the key set grows by at most that name, and every other entry is unchanged |
| `Registry.Manager.Create` | prototype.py:56-74 | a missing name fails as not found; success happens exactly when the name is registered and every override is accepted; a success is the customised clone; a rejection names exactly the offending keys |
| `Registry.NewManager` | prototype.py:47-48 | a fresh manager has no prototypes, and every creation on it fails as not found |
| `Registry.CreateMonster` | prototype.py:61-70 | cloning and then assigning the overrides one at a time, in any order, gives exactly `Create`'s result |
| `Registry.CreateWithoutOverrides` | prototype.py:62-70 | creation without overrides returns a value equal to the registered prototype |
| `Registry.CreateKeepsVariant` | prototype.py:62-64 | a `MonsterA` prototype yields a `MonsterA`, and a `MonsterB` prototype yields a `MonsterB` |
| `Registry.CreateMissingMessage` | prototype.py:71-74 | an unregistered name fails with the message `Error creating monster: Prototype '<name>' not found.`, built by `Message` from the prefix and `Describe`'s `ValueError` text |
| `Registry.RegisterThenCreate` | prototype.py:50-54 | after registration, creating under that name starts from the newly registered prototype |
| `Registry.RegisterLeavesOthers` | prototype.py:50-54 | registering one name does not change creation under any other name |
| `Registry.ReRegisterReplaces` | prototype.py:50-54 | registering a name twice is the same as registering only the second prototype |
| `Scenarios.DemoManager` | prototype.py:80-87 | the demonstration registry holds exactly `MonsterA` (100, 10, 5) and `MonsterB` (150, 15, 7, "Fireball") |
| `Scenarios.ScenarioMonsterA` | prototype.py:90 | `health=80` gives `MonsterA` (80, 10, 5) |
| `Scenarios.ScenarioMonsterB` | prototype.py:91 | `special_ability="Ice Beam", speed=8` gives `MonsterB` (150, 15, 8, "Ice Beam") |
| `Scenarios.ScenarioMonsterC` | prototype.py:94 | `health=120, attack_power=12, speed=6` gives `MonsterA` (120, 12, 6) |
| `Scenarios.ScenarioMonsterD` | prototype.py:95 | `health=180, attack_power=20, special_ability="Thunderbolt"` gives `MonsterB` (180, 20, 7, "Thunderbolt") |
| `Scenarios.ScenarioUnregistered` | prototype.py:71-74 | creating the unregistered `MonsterC` fails with `Error creating monster: Prototype 'MonsterC' not found.` |
| `Scenarios.ScenarioRejectedOverrides` | prototype.py:67-68 | under the strict policy, an undeclared field and a wrongly typed value are both reported, and nothing is created |

## Left out

- Dynamic attribute injection: `setattr` with a key the variant does not declare, or with a value of another type, succeeds in the source and reshapes the object. A typed record cannot grow fields at runtime, so the model rejects such overrides (`InvalidOverrides`). The message text `Invalid attribute override.` for that case is the model's own, because the source has no such error.
- Other exceptions: the source wraps any exception in `MonsterManagerError`. In the model nothing but the missing name and a rejected override can fail.
- The interface stub `MonsterPrototype.clone` (prototype.py:8-14) returns `None`. A bare `MonsterPrototype` registered in the source would clone to `None`, which creation without overrides returns as is.
- The registry holds only `MonsterA` and `MonsterB` values. The source accepts any object, and a value without `clone` raises an `AttributeError` that gets wrapped as a `MonsterManagerError`. This narrowing is why only the two failures above can arise.
- Object identity, aliasing and the internals of `copy.deepcopy` are not modelled. Values make the clone independent by construction.
- The demonstration driver's console output (prototype.py:97-122) is I/O. Its values appear only as scenario lemmas.
- Python integers and strings are unbounded values; the model uses `int` and `string` as is.
