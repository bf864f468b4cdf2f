/**
 * The fixed table of break categories (`BREAK_TYPES`). Each key has a display
 * name, a duration in minutes and a capacity `max_users`. The booking table
 * stores the display name, so lookups by key and by name both appear.
 */
module BreakTypes {
  import opened Basics

  datatype BreakInfo = BreakInfo(name: string, duration: nat, maxUsers: nat)

  /** "🍽 Обед": lunch, 45 minutes, at most 5 people per slot. */
  const Lunch: BreakInfo := BreakInfo("\U{1F37D} \U{041E}\U{0431}\U{0435}\U{0434}", 45, 5)

  /** "🚬 Перекур": smoke break, 10 minutes, at most 3 people per slot. */
  const Smoke: BreakInfo :=
    BreakInfo("\U{1F6AC} \U{041F}\U{0435}\U{0440}\U{0435}\U{043A}\U{0443}\U{0440}", 10, 3)

  const Keys: set<string> := {"lunch", "smoke"}

  /** `BREAK_TYPES[key]`; `None` where Python raises `KeyError`. */
  function Lookup(key: string): (r: Option<BreakInfo>)
    ensures r.Some? <==> key in Keys
    ensures r.Some? ==> r.value.duration > 0 && r.value.maxUsers > 0
  {
    if key == "lunch" then Some(Lunch)
    else if key == "smoke" then Some(Smoke)
    else None
  }

  /** The category whose display name is `name`, if any. */
  function ByName(name: string): Option<BreakInfo> {
    if name == Lunch.name then Some(Lunch)
    else if name == Smoke.name then Some(Smoke)
    else None
  }

  /** Capacity of the category with display name `name`; no row may carry another name. */
  function CapacityOfName(name: string): nat {
    match ByName(name)
    case Some(info) => info.maxUsers
    case None => 0
  }

  /**
   * Display names are distinct, so a name identifies its key's entry: joining
   * on the name, as the booking table does, is the same as joining on the key.
   */
  lemma NameIdentifiesKey(key1: string, key2: string)
    requires Lookup(key1).Some? && Lookup(key2).Some?
    ensures Lookup(key1).value.name == Lookup(key2).value.name <==> key1 == key2
    ensures ByName(Lookup(key1).value.name) == Lookup(key1)
  {
    assert Lunch.name[0] != Smoke.name[0];
  }
}
