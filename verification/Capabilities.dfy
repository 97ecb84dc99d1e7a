/** What the platform supports, as the library caches it. */
module Capabilities {
  import opened Results

  const MAX_COS: nat := 16

  datatype L3Cap = L3Cap(numClasses: nat, numWays: nat, cdp: bool, cdpOn: bool)

  datatype L2Cap = L2Cap(numClasses: nat, numWays: nat)

  datatype MbaCap = MbaCap(numClasses: nat, throttleMax: nat, throttleStep: nat, isLinear: bool)

  datatype Cap = Cap(l3: Option<L3Cap>, l2: Option<L2Cap>, mba: Option<MbaCap>) {
    function L3Classes(): nat {
      if l3.Some? then l3.value.numClasses else 0
    }

    function L2Classes(): nat {
      if l2.Some? then l2.value.numClasses else 0
    }

    function MbaClasses(): nat {
      if mba.Some? then mba.value.numClasses else 0
    }

    predicate CdpOn() {
      l3.Some? && l3.value.cdpOn
    }
  }

  /** A selection of allocation technologies. */
  datatype Tech = Tech(l2: bool, l3: bool, mba: bool) {
    predicate Any() {
      l2 || l3 || mba
    }
  }

  /** Highest COS id that can configure every requested technology; None is an error. */
  function HiCos(cap: Cap, tech: Tech): (r: Option<nat>)
    requires tech.Any()
    ensures r.Some? <==>
      && (tech.l3 ==> cap.L3Classes() > 0)
      && (tech.l2 ==> cap.L2Classes() > 0)
      && (tech.mba ==> cap.MbaClasses() > 0)
    ensures r.Some? ==>
      && (tech.l3 ==> r.value < cap.L3Classes())
      && (tech.l2 ==> r.value < cap.L2Classes())
      && (tech.mba ==> r.value < cap.MbaClasses())
    ensures r.Some? ==>
      || (tech.l3 && r.value == cap.L3Classes() - 1)
      || (tech.l2 && r.value == cap.L2Classes() - 1)
      || (tech.mba && r.value == cap.MbaClasses() - 1)
  {
    if tech.l3 && cap.L3Classes() == 0 then None
    else
      var n := if tech.l3 then cap.L3Classes() else 0;
      if tech.l2 && cap.L2Classes() == 0 then None
      else
        var n := if tech.l2 && (n == 0 || cap.L2Classes() < n) then cap.L2Classes() else n;
        if tech.mba && cap.MbaClasses() == 0 then None
        else
          var n := if tech.mba && (n == 0 || cap.MbaClasses() < n) then cap.MbaClasses() else n;
          Some(n - 1)
  }

  /** The cached capability structure, which a CDP change updates in place. */
  class CapTable {
    var cap: Cap

    constructor (cap: Cap)
      ensures this.cap == cap
    {
      this.cap := cap;
    }

    /** Records that CDP went from `prev` to `next`: classes halve or double. */
    method L3CdpChange(prev: bool, next: bool)
      modifies this
      ensures cap.l2 == old(cap.l2) && cap.mba == old(cap.mba)
      ensures cap.l3.Some? == old(cap.l3.Some?)
      ensures old(cap.l3.Some?) && prev != next ==>
        cap.l3.value == old(cap.l3.value).(
          cdpOn := next,
          numClasses := if next then old(cap.l3.value.numClasses) / 2 else old(cap.l3.value.numClasses) * 2)
      ensures prev == next ==> cap == old(cap)
    {
      if cap.l3.None? {
        return;
      }
      var l3 := cap.l3.value;
      if !prev && next {
        cap := cap.(l3 := Some(l3.(cdpOn := true, numClasses := l3.numClasses / 2)));
      }
      if prev && !next {
        cap := cap.(l3 := Some(l3.(cdpOn := false, numClasses := l3.numClasses * 2)));
      }
    }
  }
}
