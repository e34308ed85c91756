/** The upgrade catalogue and the effect a purchase has on tap power. */
module Upgrades {

  datatype Upgrade = Upgrade(name: string, cost: nat, description: string)

  const DoubleTap := "doubleTap"
  const PowerTap1 := "powerTap1"
  const PowerTap5 := "powerTap5"

  /** The three upgrades on sale, by id. */
  const Catalogue: map<string, Upgrade> := map[
    DoubleTap := Upgrade("Double Tap Power", 50, "Doubles your coins per tap!"),
    PowerTap1 := Upgrade("Power Tap I", 20, "Increases coins per tap by 1."),
    PowerTap5 := Upgrade("Power Tap V", 80, "Increases coins per tap by 5.")
  ]

  /** The property names every plain JavaScript object inherits from
      `Object.prototype`. Looking one of them up in the catalogue object
      finds a truthy value (a function, or the prototype itself for
      `__proto__`) although it is not an upgrade, and that value has no
      `cost`. */
  const InheritedNames: set<string> := {
    "constructor", "hasOwnProperty", "isPrototypeOf", "propertyIsEnumerable",
    "toLocaleString", "toString", "valueOf", "__proto__",
    "__defineGetter__", "__defineSetter__", "__lookupGetter__", "__lookupSetter__"
  }

  /** What `availableUpgrades[id]` finds: nothing, an upgrade of the
      catalogue, or an inherited member that has no price. */
  datatype Found = Missing | Priced(upgrade: Upgrade) | Unpriced

  /** The property lookup on the catalogue object: an upgrade for a
      catalogue id, an unpriced value for an inherited name, and nothing
      for any other id. */
  function Find(id: string): (f: Found)
    ensures f.Priced? <==> id in Catalogue
    ensures f.Priced? ==> f.upgrade == Catalogue[id]
    ensures f.Unpriced? <==> id in InheritedNames
    ensures f.Missing? <==> id !in Catalogue && id !in InheritedNames
  {
    if id in Catalogue then Priced(Catalogue[id])
    else if id in InheritedNames then Unpriced
    else Missing
  }

  /** Only 'doubleTap' can be bought once; the others can be bought again. */
  predicate Repeatable(id: string) {
    id != DoubleTap
  }

  /** The tap power after buying upgrade `id`: doubled, plus one or plus
      five; an id outside the catalogue leaves it as it is. Every catalogue
      upgrade strictly raises a tap power of at least 1, so tap power stays
      at least 1 and never decreases. */
  function Boost(id: string, tapPower: int): (r: int)
    ensures tapPower >= 1 && id in Catalogue ==> r > tapPower
    ensures id !in Catalogue ==> r == tapPower
    ensures id == DoubleTap ==> r == 2 * tapPower
    ensures id == PowerTap1 ==> r == tapPower + 1
    ensures id == PowerTap5 ==> r == tapPower + 5
  {
    if id == DoubleTap then tapPower * 2
    else if id == PowerTap1 then tapPower + 1
    else if id == PowerTap5 then tapPower + 5
    else tapPower
  }
}
