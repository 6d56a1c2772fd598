/** What the models share: an option type, and counting over flags. */
module Wrappers {
  datatype Option<+T> = None | Some(value: T)

  /** How many of the flags are set. */
  ghost function CountSet(flags: seq<bool>): nat {
    |set i | 0 <= i < |flags| && flags[i]|
  }

  lemma OneMoreFlag(flags: seq<bool>, more: bool)
    ensures CountSet(flags + [more]) == CountSet(flags) + if more then 1 else 0
  {
    assert (set i | 0 <= i < |flags| + 1 && (flags + [more])[i])
        == (set i | 0 <= i < |flags| && flags[i]) + if more then {|flags|} else {};
  }
}
