/**
 * The target end of a stretchy tether: whether it is in use, and a local
 * and a world offset from the target, each with a flag saying whether it is
 * applied. The offset setters tie each flag to whether its offset is
 * non-zero; the helper methods set or clear the flags directly.
 */
module StretchyTargets {

  /** A vector, abstracted to an integer triple. */
  datatype Vec3 = Vec3(x: int, y: int, z: int)

  const Zero: Vec3 := Vec3(0, 0, 0)

  class StretchyTarget {
    var isFree: bool
    var useWorldOffset: bool
    var useLocalOffset: bool
    var worldOffset: Vec3
    var localOffset: Vec3

    /** Each use-flag is set exactly when its offset is non-zero. */
    predicate FlagsMatchOffsets()
      reads this
    {
      useLocalOffset == (localOffset != Zero) && useWorldOffset == (worldOffset != Zero)
    }

    /** A fresh target is free, has zero offsets and uses the local one. */
    constructor ()
      ensures isFree
      ensures localOffset == Zero && worldOffset == Zero
      ensures useLocalOffset && !useWorldOffset
      ensures !FlagsMatchOffsets()
    {
      isFree := true;
      useWorldOffset := false;
      useLocalOffset := true;
      worldOffset := Zero;
      localOffset := Zero;
    }

    /** The `isFree` setter. */
    method SetIsFree(value: bool)
      modifies this`isFree
      ensures isFree == value
    {
      isFree := value;
    }

    /** The `localOffset` setter; a zero offset clears `useLocalOffset`. */
    method SetLocalOffset(value: Vec3)
      modifies this`localOffset, this`useLocalOffset
      ensures localOffset == value
      ensures useLocalOffset <==> value != Zero
      ensures old(FlagsMatchOffsets()) ==> FlagsMatchOffsets()
    {
      localOffset := value;
      useLocalOffset := value != Zero;
    }

    /** The `worldOffset` setter; a zero offset clears `useWorldOffset`. */
    method SetWorldOffset(value: Vec3)
      modifies this`worldOffset, this`useWorldOffset
      ensures worldOffset == value
      ensures useWorldOffset <==> value != Zero
      ensures old(FlagsMatchOffsets()) ==> FlagsMatchOffsets()
    {
      worldOffset := value;
      useWorldOffset := value != Zero;
    }

    /** Set both offsets at once, through their setters. */
    method SetOffsets(localOffs: Vec3, worldOffs: Vec3)
      modifies this`localOffset, this`useLocalOffset, this`worldOffset, this`useWorldOffset
      ensures localOffset == localOffs && worldOffset == worldOffs
      ensures useLocalOffset <==> localOffs != Zero
      ensures useWorldOffset <==> worldOffs != Zero
      ensures FlagsMatchOffsets()
    {
      SetLocalOffset(localOffs);
      SetWorldOffset(worldOffs);
    }

    /** Set the world offset through its setter and stop using the local one. */
    method SetWorldOffsetOnly(worldOffs: Vec3)
      modifies this`worldOffset, this`useWorldOffset, this`useLocalOffset
      ensures worldOffset == worldOffs
      ensures useWorldOffset <==> worldOffs != Zero
      ensures !useLocalOffset
      ensures FlagsMatchOffsets() <==> localOffset == Zero
    {
      SetWorldOffset(worldOffs);
      useLocalOffset := false;
    }

    /** Set the local offset through its setter and stop using the world one. */
    method SetLocalOffsetOnly(localOffs: Vec3)
      modifies this`localOffset, this`useLocalOffset, this`useWorldOffset
      ensures localOffset == localOffs
      ensures useLocalOffset <==> localOffs != Zero
      ensures !useWorldOffset
      ensures FlagsMatchOffsets() <==> worldOffset == Zero
    {
      SetLocalOffset(localOffs);
      useWorldOffset := false;
    }

    /** Apply the stored world offset only; the offsets themselves stay. */
    method UseWorldOffsetOnly()
      modifies this`useWorldOffset, this`useLocalOffset
      ensures useWorldOffset && !useLocalOffset
      ensures FlagsMatchOffsets() <==> worldOffset != Zero && localOffset == Zero
    {
      useWorldOffset := true;
      useLocalOffset := false;
    }

    /** Apply the stored local offset only; the offsets themselves stay. */
    method UseLocalOffsetOnly()
      modifies this`useWorldOffset, this`useLocalOffset
      ensures useLocalOffset && !useWorldOffset
      ensures FlagsMatchOffsets() <==> localOffset != Zero && worldOffset == Zero
    {
      useLocalOffset := true;
      useWorldOffset := false;
    }

    /**
     * Zero both offsets through their setters, which clears both flags.
     * The chained assignment runs the world setter first.
     */
    method ClearOffsets()
      modifies this`localOffset, this`useLocalOffset, this`worldOffset, this`useWorldOffset
      ensures localOffset == Zero && worldOffset == Zero
      ensures !useLocalOffset && !useWorldOffset
      ensures FlagsMatchOffsets()
    {
      SetWorldOffset(Zero);
      SetLocalOffset(Zero);
    }
  }
}
