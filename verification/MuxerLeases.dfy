/**
 * Shared muxer instances of a stream (core/muxer_manager.go). An instance may be replaced while
 * old subscribers still hold it; what they give back must never reach its replacement.
 */
module MuxerLeases {
  class MuxerInstance {
    const format: string
    const generation: nat
    var users: int
    var done: bool

    constructor (format: string, generation: nat)
      ensures this.format == format && this.generation == generation && users == 0 && !done
    {
      this.format, this.generation, users, done := format, generation, 0, false;
    }
  }

  class MuxerManager {
    var muxers: map<string, MuxerInstance>
    /** Outstanding leases of every instance ever handed out. */
    ghost var held: map<MuxerInstance, nat>

    ghost predicate Counted(i: MuxerInstance)
      requires i in held
      reads this, i
    {
      i.users == held[i]
    }

    /** Each format has at most one live instance, in use; every other instance is done. */
    ghost predicate Valid()
      reads this, held.Keys
    {
      && (forall f :: f in muxers ==> muxers[f] in held && muxers[f].format == f)
      && (forall f :: f in muxers ==> !muxers[f].done && muxers[f].users > 0)
      && (forall i :: i in held ==> Counted(i))
      && (forall i :: i in held && !i.done ==> i.format in muxers && muxers[i.format] == i)
    }

    constructor ()
      ensures Valid() && muxers == map[] && held == map[]
    {
      muxers, held := map[], map[];
    }

    /**
     * Takes a lease on the instance of a format for the active generation, and none when there
     * is no active generation. An instance of another generation is closed either way.
     */
    method GetOrCreate(format: string, generation: nat, active: bool) returns (inst: MuxerInstance?)
      requires Valid()
      modifies this, held.Keys
      ensures Valid() && fresh(held.Keys - old(held.Keys))
      ensures inst == null <==> !active
      ensures !active ==> held == old(held) && muxers == old(muxers) - {format}
      ensures inst != null ==>
                && inst.format == format && inst.generation == generation && !inst.done
                && muxers == old(muxers)[format := inst]
                && held == old(held)[inst := (if inst in old(held) then old(held)[inst] else 0) + 1]
      ensures forall i :: i in old(held) && old(i.done) ==> i.done
      ensures forall i :: i in old(held) && i != inst ==> held[i] == old(held)[i]
    {
      if !active {
        if format in muxers {
          muxers[format].done := true;
          muxers := muxers - {format};
        }
        return null;
      }
      if format in muxers && muxers[format].generation == generation {
        inst := muxers[format];
      } else {
        inst := Replace(format, generation);
      }
      Join(format, inst);
    }

    /** One more subscriber on an instance that is current, or about to be. */
    method Join(format: string, inst: MuxerInstance)
      requires Valid() && inst.format == format && !inst.done
      requires if inst in held then format in muxers && muxers[format] == inst else format !in muxers && inst.users == 0
      modifies this, inst`users
      ensures Valid() && muxers == old(muxers)[format := inst]
      ensures held == old(held)[inst := (if inst in old(held) then old(held)[inst] else 0) + 1]
    {
      inst.users := inst.users + 1;
      held := held[inst := (if inst in held then held[inst] else 0) + 1];
      muxers := muxers[format := inst];
    }

    /** Closes what stood in the way and makes an instance that nobody uses yet. */
    method Replace(format: string, generation: nat) returns (inst: MuxerInstance)
      requires Valid()
      modifies this`muxers, held.Keys
      ensures fresh(inst) && inst.format == format && inst.generation == generation && inst.users == 0 && !inst.done
      ensures muxers == old(muxers) - {format} && Valid()
      ensures forall i :: i in held && old(i.done) ==> i.done
    {
      if format in muxers {
        muxers[format].done := true;
        muxers := muxers - {format};
      } else {
        assert muxers - {format} == muxers;
      }
      inst := new MuxerInstance(format, generation);
    }

    /** Gives a lease back. Without one there is nothing to give. */
    method Release(format: string, inst: MuxerInstance?)
      requires Valid() && (inst != null ==> inst in held && inst.format == format)
      modifies this, held.Keys
      ensures Valid()
      ensures inst == null || old(held)[inst] == 0 ==> held == old(held) && muxers == old(muxers)
      ensures inst != null && old(held)[inst] > 0 ==> held == old(held)[inst := old(held)[inst] - 1]
      ensures muxers == old(muxers) ||
              (inst != null && old(held)[inst] == 1 && format in old(muxers) && old(muxers)[format] == inst
               && muxers == old(muxers) - {format})
      ensures inst != null && old(inst.done) ==> muxers == old(muxers)
      ensures forall i :: i in held && i != inst ==> i.done == old(i.done) && i.users == old(i.users)
    {
      if inst == null || inst.users <= 0 {
        return;
      }
      inst.users := inst.users - 1;
      held := held[inst := held[inst] - 1];
      if inst.users <= 0 {
        inst.done := true;
        if format in muxers && muxers[format] == inst {
          muxers := muxers - {format};
        }
      }
    }
  }
}
