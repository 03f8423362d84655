/** Counting the members of a set when one of them comes or goes. */
module Sets {
  lemma OneMember<T>(s: set<T>, s': set<T>, x: T)
    requires s - {x} == s' - {x}
    ensures |s'| - (if x in s' then 1 else 0) == |s| - (if x in s then 1 else 0)
  {
    assert s == s - {x} + if x in s then {x} else {};
    assert s' == s' - {x} + if x in s' then {x} else {};
  }
}
