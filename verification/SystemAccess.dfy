/** Declared access sets of subsystems (src/kernel/subsystem.rs). */
module SystemAccess {
  datatype Access = Access(readKeys: seq<string>, writeKeys: seq<string>, exclusive: bool)

  /** True when two systems may not share a wave. */
  predicate Conflicts(a: Access, b: Access) {
    || a.exclusive || b.exclusive
    || (exists key :: key in a.writeKeys && (key in b.readKeys || key in b.writeKeys))
    || (exists key :: key in b.writeKeys && key in a.readKeys)
  }

  /** The keys whose values a system's outcome may depend on or change. */
  ghost predicate Touches(a: Access, key: string) {
    key in a.readKeys || key in a.writeKeys
  }

  lemma ConflictsIsSymmetric(a: Access, b: Access)
    ensures Conflicts(a, b) == Conflicts(b, a)
  {
    if Conflicts(a, b) && !a.exclusive && !b.exclusive {
      if key :| key in a.writeKeys && (key in b.readKeys || key in b.writeKeys) {
        assert Conflicts(b, a);
      }
    }
    if Conflicts(b, a) && !a.exclusive && !b.exclusive {
      if key :| key in b.writeKeys && (key in a.readKeys || key in a.writeKeys) {
        assert Conflicts(a, b);
      }
    }
  }
}
