/** The chain indexer of core/chain_indexer.go as a protocol: the lock is free while a section is processed. */
module ChainIndexers {
  import opened Basics
  import opened Headers
  import opened HeaderChains

  /** A section being processed: `last` is the header reached after `done` blocks. */
  datatype Job = Job(section: nat, oldHead: Hash, last: Hash, done: nat, failed: bool) {
    /** With one more block processed, if it fits. */
    function Next(fits: bool, read: Option<Header>): Job {
      if fits && read.Some? then this.(last := read.value.Hash(), done := done + 1) else this.(failed := true)
    }
  }

  /** The first block number of section `s`: `s` times the section size. */
  function Start(s: nat, size: nat): nat {
    if s == 0 then 0 else Start(s - 1, size) + size
  }

  lemma {:induction false} StartIsProduct(s: nat, size: nat)
    ensures Start(s, size) == s * size
  {
    if s != 0 {
      StartIsProduct(s - 1, size);
    }
  }

  ghost predicate LinkedAt(chain: Markers, n: int) {
    Marker(chain, n) != Zero ==>
      && 0 <= n && Marker(chain, n).header.number == n && Marker(chain, n).header.parentHash == Marker(chain, n - 1)
      && (0 < n ==> Marker(chain, n - 1) != Zero)
  }

  /** A chain of markers from the genesis header up, in which every header follows the one below. */
  ghost predicate ParentLinked(chain: Markers) {
    forall n {:trigger LinkedAt(chain, n)} :: LinkedAt(chain, n)
  }

  lemma {:induction false} LinkedUp(chain: Markers, n: int, k: nat)
    requires ParentLinked(chain) && Marker(chain, n) != Zero && k <= n + 1
    ensures Up(Marker(chain, n), k) == Marker(chain, n - k)
    decreases k
  {
    assert LinkedAt(chain, n);
    if k != 0 && n != 0 {
      LinkedUp(chain, n - 1, k - 1);
    }
  }

  /** Where a parent-linked chain has a header it has one at every number below. */
  lemma {:induction false} MarkedBelow(chain: Markers, n: int, k: nat)
    requires ParentLinked(chain) && Marker(chain, n) != Zero && k <= n
    ensures Marker(chain, k) != Zero
    decreases n
  {
    assert LinkedAt(chain, n);
    if k < n {
      MarkedBelow(chain, n - 1, k);
    }
  }

  /** The header the chain has at number `n`. */
  function HeaderAt(chain: Markers, n: nat): Option<Header> {
    if Marker(chain, n) == Zero then None else Some(Marker(chain, n).header)
  }

  lemma {:induction false} KnownBlocks(chain: Markers, s: nat, known: nat, size: nat)
    requires ParentLinked(chain) && 0 < s <= known && 0 < size && Marker(chain, Start(known, size) - 1) != Zero
    ensures Marker(chain, Start(s, size) - 1) != Zero
  {
    if s < known {
      MarkedBelow(chain, Start(known, size) - 1, Start(known - 1, size) - 1);
      KnownBlocks(chain, s, known - 1, size);
    }
  }

  /** The head of section `s` is reached from that of the section before by exactly `size` links. */
  ghost predicate Follows(heads: map<nat, Hash>, s: nat, size: nat) {
    && s in heads && heads[s].HashOf? && heads[s].header.number == Start(s, size) + size - 1
    && if s == 0 then Up(heads[s], size) == Zero && Up(heads[s], size - 1) != Zero
       else s - 1 in heads && Up(heads[s], size) == heads[s - 1]
  }

  datatype Event =
    | ChainHead(head: nat, chain: Markers)
    | ChainFork(head: nat)
    | Query(chain: Markers)
    | Checkpoint(section: nat, shead: Hash)
    | Update(chain: Markers)
    | ResetFailure
    | Block(read: Option<Header>, fails: bool)
    | Done(chain: Markers, commitFails: bool)

  function Min(a: nat, b: nat): nat {
    if a < b then a else b
  }

  function Max(a: nat, b: nat): nat {
    if a < b then b else a
  }

  lemma {:induction false} StartGrows(s: nat, t: nat, size: nat)
    requires s <= t
    ensures Start(s, size) <= Start(t, size)
  {
    if s < t {
      StartGrows(s, t - 1, size);
    }
  }

  lemma {:induction false} SectionsFit(s: nat, most: nat, n: nat, size: nat)
    requires 0 < size && s <= most == n / size
    ensures Start(s, size) <= n
  {
    StartGrows(s, most, size);
    StartIsProduct(most, size);
  }

  ghost predicate ChainedInFull(heads: map<nat, Hash>, lo: nat, hi: nat, size: nat) {
    && (forall s :: lo <= s + 1 && 0 <= s < hi ==> s in heads && heads[s].HashOf?)
    && (forall s :: lo <= s < hi ==> Follows(heads, s, size))
  }

  /** The heads below `hi`, from the one before `lo` on, are known, and each follows the one before; guarded by `Open`. */
  ghost predicate Chained(heads: map<nat, Hash>, lo: nat, hi: nat, size: nat) {
    forall k {:trigger Open(k)} :: Open(k) ==> ChainedInFull(heads, lo, hi, size)
  }

  lemma ChainedStill(heads: map<nat, Hash>, lo: nat, hi: nat, size: nat, heads': map<nat, Hash>, hi': nat)
    requires Chained(heads, lo, hi, size) && hi' <= hi
    requires forall s :: 0 <= s < hi' && s in heads ==> s in heads' && heads'[s] == heads[s]
    ensures Chained(heads', lo, hi', size)
  {
    assert Open(0);
    forall s | lo <= s < hi' ensures Follows(heads', s, size) {
      assert Follows(heads, s, size);
    }
  }

  /** One more head, linked to the last one. */
  lemma ChainedNext(heads: map<nat, Hash>, lo: nat, hi: nat, size: nat, last: Hash, heads': map<nat, Hash>, hi': nat)
    requires Chained(heads, lo, hi, size) && lo <= hi && hi' == hi + 1 && 0 < size
    requires last.HashOf? && last.header.number == Start(hi, size) + size - 1 && Up(last, size - 1) != Zero
    requires if hi == 0 then Up(last, size) == Zero else hi - 1 in heads && Up(last, size) == heads[hi - 1]
    requires forall s :: 0 <= s < hi && s in heads ==> s in heads' && heads'[s] == heads[s]
    requires hi in heads' && heads'[hi] == last
    ensures Chained(heads', lo, hi', size)
  {
    assert Open(0);
    forall s | lo <= s < hi' ensures Follows(heads', s, size) {
      assert s < hi ==> Follows(heads, s, size);
    }
  }

  class ChainIndexer {
    const sectionSize: nat
    const confirmsReq: nat
    var storedSections: nat
    var knownSections: nat
    var cascadedHead: nat
    var checkpointSections: nat
    var checkpointHead: Hash
    var heads: map<nat, Hash>
    var job: Option<Job>
    ghost var trusted: nat

    /** The last trusted section when a checkpoint went past the section being processed. */
    ghost var base: nat

    /** The heads of all stored sections from the last trusted one on are known, and each section that is not
        trusted follows the one before. */
    ghost predicate Indexed()
      reads this
    {
      && 0 < sectionSize && trusted <= storedSections && trusted <= checkpointSections
      && (forall s :: s in heads ==> s < storedSections)
      && Chained(heads, trusted, storedSections, sectionSize)
    }

    /** If a checkpoint has gone past the section being processed, the heads it builds on are still those from
        `base` on, unless they were rolled back. */
    ghost predicate Based(j: Job)
      reads this
    {
      && base <= j.section && base <= checkpointSections
      && (0 < j.section && j.section - 1 in heads && heads[j.section - 1] == j.oldHead ==>
            Chained(heads, base, j.section, sectionSize))
    }

    /** The section being processed is the next one, or one whose predecessor has been rolled back, or one that a
        checkpoint has gone past. */
    ghost predicate Working(j: Job)
      reads this
    {
      && (j.section == 0 <==> j.oldHead == Zero)
      && (if storedSections <= j.section then trusted <= j.section else Based(j))
      && (!j.failed ==>
            && j.done <= sectionSize && Up(j.last, j.done) == j.oldHead
            && (0 < j.done ==> j.last.HashOf? && j.last.header.number == Start(j.section, sectionSize) + j.done - 1)
            && (0 < j.done ==> Up(j.last, j.done - 1) != Zero))
    }

    ghost predicate Valid()
      reads this
    {
      Indexed() && (job.Some? ==> Working(job.value))
    }

    constructor (sectionSize: nat, confirmsReq: nat)
      requires 0 < sectionSize
      ensures Valid() && job == None && storedSections == knownSections == checkpointSections == 0
      ensures this.sectionSize == sectionSize && this.confirmsReq == confirmsReq
    {
      this.sectionSize, this.confirmsReq := sectionSize, confirmsReq;
      storedSections, knownSections, cascadedHead, checkpointSections := 0, 0, 0, 0;
      checkpointHead, heads, job, trusted, base := Zero, map[], None, 0, 0;
    }

    function SectionHead(s: int): Hash
      reads this
    {
      if s in heads then heads[s] else Zero
    }

    /** Sets the number of valid sections, removing the heads above it. */
    method SetValidSections(sections: nat)
      modifies this`storedSections, this`heads
      ensures storedSections == sections
      ensures forall s :: s in heads <==> s in old(heads) && !(sections <= s < old(storedSections))
      ensures forall s :: s in heads ==> heads[s] == old(heads)[s]
    {
      ghost var heads0, stored0 := heads, storedSections;
      while sections < storedSections
        invariant if stored0 <= sections then storedSections == stored0 else sections <= storedSections <= stored0
        invariant forall s :: s in heads <==> s in heads0 && !(storedSections <= s < stored0)
        invariant forall s :: s in heads ==> heads[s] == heads0[s]
      {
        storedSections := storedSections - 1;
        heads := heads - {storedSections};
      }
      storedSections := sections;
    }

    /** Rolls back; a job that loses its predecessor will not commit. */
    method RollBack(sections: nat)
      requires Valid() && trusted <= sections <= storedSections
      modifies this`storedSections, this`heads
      ensures Valid() && storedSections == sections
      ensures forall s :: s < storedSections ==> SectionHead(s) == old(SectionHead(s))
    {
      ghost var heads0, stored0 := heads, storedSections;
      SetValidSections(sections);
      ChainedStill(heads0, trusted, stored0, sectionSize, heads, sections);
      if job.Some? && sections > job.value.section && Chained(heads0, base, job.value.section, sectionSize) {
        ChainedStill(heads0, base, job.value.section, sectionSize, heads, job.value.section);
      }
    }

    /** The stored head of section `s` is the canonical header at its end. */
    ghost predicate IsCanonicalHead(chain: Markers, s: nat)
      reads this
    {
      SectionHead(s) == Marker(chain, Start(s, sectionSize) + sectionSize - 1)
    }

    /** There is no stored section, or the head of the last one is canonical. */
    ghost predicate Grounded(chain: Markers, sections: nat)
      reads this
    {
      sections == 0 || SectionHead(sections - 1) == Marker(chain, Start(sections, sectionSize) - 1)
    }

    /** The stored sections whose head is not canonical are dropped, from the top, down to the checkpoint. */
    twostate predicate Verified(chain: Markers)
      reads this
    {
      && storedSections <= old(storedSections)
      && (storedSections < old(storedSections) ==> checkpointSections <= storedSections)
      && (forall s :: s < storedSections ==> SectionHead(s) == old(SectionHead(s)))
      && (forall s :: storedSections <= s < old(storedSections) ==> old(!IsCanonicalHead(chain, s)))
    }

    method VerifyLastHead(chain: Markers)
      requires Valid()
      modifies this`storedSections, this`heads
      ensures Valid() && Verified(chain)
      ensures checkpointSections < storedSections ==> Grounded(chain, storedSections)
    {
      while 0 < storedSections && checkpointSections < storedSections
        invariant Valid() && storedSections <= old(storedSections)
        invariant storedSections < old(storedSections) ==> checkpointSections <= storedSections
        invariant forall s :: s < storedSections ==> SectionHead(s) == old(SectionHead(s))
        invariant forall s :: storedSections <= s < old(storedSections) ==> old(!IsCanonicalHead(chain, s))
      {
        if SectionHead(storedSections - 1) == Marker(chain, Start(storedSections, sectionSize) - 1) {
          return;
        }
        RollBack(storedSections - 1);
      }
    }

    /** On a parent-linked chain, if the last head is canonical then so are all from the checkpoint on. */
    lemma AllCanonical(chain: Markers)
      requires Indexed() && ParentLinked(chain) && trusted < storedSections
      requires SectionHead(storedSections - 1) == Marker(chain, Start(storedSections, sectionSize) - 1)
      ensures forall s :: trusted <= s + 1 && 0 <= s < storedSections ==> IsCanonicalHead(chain, s)
    {
      assert Open(0);
      var s := storedSections - 1;
      while 0 < s && trusted <= s
        invariant 0 <= s < storedSections && trusted <= s + 1
        invariant forall t :: s <= t < storedSections ==> IsCanonicalHead(chain, t)
      {
        assert IsCanonicalHead(chain, s);
        assert Follows(heads, s, sectionSize);
        LinkedUp(chain, Start(s, sectionSize) + sectionSize - 1, sectionSize);
        s := s - 1;
      }
    }

    /** The stored sections and the head of the last one, after verifying it. */
    method Sections(chain: Markers) returns (sections: nat, number: int, head: Hash)
      requires Valid()
      modifies this`storedSections, this`heads
      ensures Valid() && sections == storedSections && Verified(chain)
      ensures number == Start(sections, sectionSize) - 1 && head == SectionHead(sections - 1)
      ensures ParentLinked(chain) && checkpointSections < sections ==>
                forall s :: trusted <= s + 1 && 0 <= s < storedSections ==> IsCanonicalHead(chain, s)
    {
      VerifyLastHead(chain);
      if ParentLinked(chain) && checkpointSections < storedSections {
        AllCanonical(chain);
      }
      return storedSections, Start(storedSections, sectionSize) - 1, SectionHead(storedSections - 1);
    }

    /** The heads that a section being processed builds on stay below a checkpoint that goes past it. */
    ghost method RebaseJob(section: nat, shead: Hash)
      requires Valid() && checkpointSections <= section && storedSections <= section
      modifies this`base
      ensures job.Some? && job.value.section <= section ==>
                && base <= job.value.section && base <= section + 1
                && var j, heads' := job.value, heads[section := shead];
                   0 < j.section && j.section - 1 in heads' && heads'[j.section - 1] == j.oldHead ==>
                     Chained(heads', base, j.section, sectionSize)
    {
      if job.Some? && storedSections <= job.value.section {
        base := if storedSections == job.value.section then trusted else 0;
      }
      if job.Some? && job.value.section <= section && Chained(heads, base, job.value.section, sectionSize) {
        ChainedStill(heads, base, job.value.section, sectionSize, heads[section := shead], job.value.section);
      }
    }

    /** A checkpoint above everything stored and above the one before is taken as the last stored section; any other
        is ignored. */
    twostate predicate Checkpointed(section: nat, shead: Hash)
      reads this
    {
      if old(checkpointSections) <= section && old(storedSections) <= section
      then && storedSections == checkpointSections == section + 1 && SectionHead(section) == shead == checkpointHead
           && forall s :: s != section ==> SectionHead(s) == old(SectionHead(s))
      else unchanged(`storedSections, `heads, `checkpointSections, `checkpointHead)
    }

    /** A trusted section head from outside; a section may be in the middle of being processed. */
    method AddCheckpoint(section: nat, shead: Hash)
      requires Valid() && shead.HashOf?
      modifies this`checkpointSections, this`checkpointHead, this`storedSections, this`heads, this`trusted, this`base
      ensures Valid() && Checkpointed(section, shead)
    {
      if section + 1 <= checkpointSections || section < storedSections {
        return;
      }
      RebaseJob(section, shead);
      checkpointSections, checkpointHead := section + 1, shead;
      trusted := section + 1;
      heads := heads[section := shead];
      ghost var heads' := heads;
      SetValidSections(section + 1);
      assert heads == heads';
    }

    /** Keeps the first `fit` sections, and those below the checkpoint. */
    method CutTo(fit: nat)
      requires Valid()
      modifies this`storedSections, this`heads, this`knownSections, this`cascadedHead
      ensures Valid()
      ensures storedSections == Min(old(storedSections), Max(fit, checkpointSections))
      ensures knownSections == Min(if fit < checkpointSections then 0 else fit, old(knownSections))
      ensures cascadedHead == Min(Start(if fit < checkpointSections then 0 else fit, sectionSize), old(cascadedHead))
      ensures forall s :: s < storedSections ==> SectionHead(s) == old(SectionHead(s))
    {
      var known := if fit < checkpointSections then 0 else fit;
      var stored := Max(fit, checkpointSections);
      if stored < storedSections {
        RollBack(stored);
      }
      knownSections := Min(known, knownSections);
      cascadedHead := Min(Start(known, sectionSize), cascadedHead);
    }

    /** The known and the stored sections, and the blocks passed on, that end beyond `head` are given up, but for the
        stored ones of the checkpoint. */
    twostate predicate Forked(head: nat)
      requires 0 < sectionSize
      reads this
    {
      var fit := (head + 1) / sectionSize;
      var known := if fit < checkpointSections then 0 else fit;
      && storedSections == Min(old(storedSections), Max(fit, checkpointSections))
      && knownSections == Min(known, old(knownSections)) && cascadedHead == Min(Start(known, sectionSize), old(cascadedHead))
      && forall s :: s < storedSections ==> SectionHead(s) == old(SectionHead(s))
    }

    /** The chain was cut back to `head`: no section stored above the checkpoint ends beyond it. */
    method Fork(head: nat)
      requires Valid()
      modifies this`storedSections, this`heads, this`knownSections, this`cascadedHead
      ensures Valid() && Forked(head)
      ensures checkpointSections < storedSections ==> Start(storedSections, sectionSize) <= head + 1
    {
      var fit := (head + 1) / sectionSize;
      CutTo(fit);
      if storedSections <= fit {
        SectionsFit(storedSections, fit, head + 1, sectionSize);
      }
    }

    /** The sections that end `confirmsReq` blocks below `head` are known, unless they lie below the checkpoint or the
        chain has another header at the checkpoint. */
    twostate predicate Learned(head: nat, chain: Markers)
      requires 0 < sectionSize
      reads this
    {
      var ripe := if confirmsReq <= head then (head + 1 - confirmsReq) / sectionSize else 0;
      knownSections ==
      if checkpointSections <= ripe
         && (checkpointSections <= old(knownSections)
             || Marker(chain, Start(checkpointSections, sectionSize) - 1) == checkpointHead)
      then Max(ripe, old(knownSections)) else old(knownSections)
    }

    /** A new head: whatever becomes known ends `confirmsReq` blocks below it. */
    method NewHead(head: nat, chain: Markers)
      requires Valid()
      modifies this`knownSections
      ensures Valid() && Learned(head, chain)
      ensures old(knownSections) < knownSections ==>
                Start(knownSections, sectionSize) + confirmsReq <= head + 1 && checkpointSections <= knownSections
      ensures confirmsReq <= head && checkpointSections <= (head + 1 - confirmsReq) / sectionSize &&
              (checkpointSections <= old(knownSections) ||
               Marker(chain, Start(checkpointSections, sectionSize) - 1) == checkpointHead) ==>
                (head + 1 - confirmsReq) / sectionSize <= knownSections
    {
      if confirmsReq <= head {
        var sections := (head + 1 - confirmsReq) / sectionSize;
        SectionsFit(sections, sections, head + 1 - confirmsReq, sectionSize);
        if sections < checkpointSections {
          sections := 0;
        }
        if knownSections < sections {
          if knownSections < checkpointSections {
            var syncedHead := Marker(chain, Start(checkpointSections, sectionSize) - 1);
            if syncedHead != checkpointHead {
              return;
            }
          }
          knownSections := sections;
        }
      }
    }

    /** The next section is taken up, once the stored ones are verified, with the lock given up. */
    twostate predicate Begun(chain: Markers)
      reads this
    {
      && Verified(chain) && unchanged(`knownSections, `cascadedHead, `checkpointSections, `checkpointHead)
      && (if old(storedSections) < knownSections
          then && (checkpointSections < storedSections ==> Grounded(chain, storedSections))
               && job == Some(Job(storedSections, SectionHead(storedSections - 1), SectionHead(storedSections - 1), 0, false))
          else job == None && unchanged(`storedSections))
    }

    method Begin(chain: Markers)
      requires Valid() && job == None
      modifies this`storedSections, this`heads, this`job
      ensures Valid() && Begun(chain)
      ensures job.Some? ==> job.value.oldHead == job.value.last == SectionHead(job.value.section - 1)
    {
      if storedSections < knownSections {
        VerifyLastHead(chain);
        var section := storedSections;
        var oldHead := Zero;
        if 0 < section {
          oldHead := SectionHead(section - 1);
          assert Open(0);
        }
        job := Some(Job(section, oldHead, oldHead, 0, false));
      }
    }

    /** The backend cannot start a section: everything is dropped, without the lock. */
    method ResetFails()
      requires Valid() && job.Some? && !job.value.failed && job.value.done == 0
      modifies this`storedSections, this`heads, this`job, this`trusted
      ensures Valid() && storedSections == 0 && heads == map[]
      ensures job == Some(old(job).value.(failed := true))
    {
      SetValidSections(0);
      trusted := 0;
      job := Some(job.value.(failed := true));
    }

    /** The header that comes next in the section being processed, and that the backend takes. */
    ghost predicate Fits(read: Option<Header>, fails: bool)
      requires job.Some?
      reads this
    {
      && read.Some? && read.value.number == Start(job.value.section, sectionSize) + job.value.done
      && read.value.parentHash == job.value.last && !fails
    }

    /** Processes the next block of the section; `read` is what the chain has at its number by now. */
    method ProcessBlock(read: Option<Header>, fails: bool)
      requires Valid() && job.Some? && !job.value.failed && job.value.done < sectionSize
      modifies this`job
      ensures Valid()
      ensures job == Some(old(job.value).Next(old(Fits(read, fails)), read))
    {
      var j := job.value;
      var number := Start(j.section, sectionSize) + j.done;
      if read == None || read.value.number != number || read.value.parentHash != j.last || fails {
        job := Some(j.(failed := true));
        return;
      }
      var hash := read.value.Hash();
      assert forall k: nat :: 0 < k ==> Up(hash, k) == Up(j.last, k - 1);
      job := Some(j.(last := hash, done := j.done + 1));
    }

    /** Stores the head of the section that was processed; sections above it, up to a checkpoint, are dropped. */
    method Commit(j: Job)
      requires Indexed() && Working(j) && !j.failed && j.done == sectionSize
      requires j.section == 0 || SectionHead(j.section - 1) == j.oldHead
      modifies this`storedSections, this`heads, this`trusted
      ensures Indexed() && storedSections == j.section + 1 && SectionHead(j.section) == j.last
      ensures forall s :: s < j.section ==> SectionHead(s) == old(SectionHead(s))
    {
      ghost var heads0 := heads;
      if j.section < storedSections {
        trusted := base;
      }
      if j.section == 0 {
        assert Chained(heads0, trusted, 0, sectionSize);
      }
      heads := heads[j.section := j.last];
      SetValidSections(j.section + 1);
      ChainedNext(heads0, trusted, j.section, sectionSize, j.last, heads, j.section + 1);
    }

    /** The section being processed is complete and will be stored, unless the backend fails to commit it. */
    ghost predicate Commits(commitFails: bool)
      reads this
    {
      && job.Some? && !job.value.failed && job.value.done == sectionSize && !commitFails
      && (job.value.section == 0 || SectionHead(job.value.section - 1) == job.value.oldHead)
    }

    /** The section that was processed is stored, exactly if all went well and the head below is still the one the work
        was based on; otherwise what is not stored is no longer known. */
    twostate predicate Finished(chain: Markers, commitFails: bool)
      requires old(job).Some?
      reads this
    {
      var j := old(job).value;
      && job == None
      && if old(Commits(commitFails))
         then && storedSections == j.section + 1 && SectionHead(j.section) == j.last
              && knownSections == old(knownSections) && cascadedHead == Start(j.section + 1, sectionSize) - 1
              && forall s :: s < j.section ==> SectionHead(s) == old(SectionHead(s))
         else Verified(chain) && knownSections == storedSections && cascadedHead == old(cascadedHead)
    }

    /** Takes the lock again. */
    method Finish(chain: Markers, commitFails: bool)
      requires Valid() && job.Some? && (job.value.failed || job.value.done == sectionSize)
      modifies this`storedSections, this`heads, this`knownSections, this`cascadedHead, this`job, this`trusted
      ensures Valid() && Finished(chain, commitFails)
    {
      var j := job.value;
      var err := j.failed || commitFails;
      if !err && (j.section == 0 || j.oldHead == SectionHead(j.section - 1)) {
        Commit(j);
        cascadedHead := Start(storedSections, sectionSize) - 1;
        job := None;
      } else {
        VerifyLastHead(chain);
        knownSections := storedSections;
        job := None;
      }
    }

    /** The sections up to the last checkpoint are stored, and the last of them is the checkpoint. */
    ghost predicate Anchored()
      reads this
    {
      0 < checkpointSections ==>
        checkpointSections <= storedSections && SectionHead(checkpointSections - 1) == checkpointHead
    }

    /** The event drops the checkpoint or replaces it: the backend cannot start a section, or a section that is no
        higher than the checkpoint is stored, unless it is the checkpoint itself. */
    ghost predicate Loses(event: Event)
      reads this
    {
      match event
      case ResetFailure => 0 < checkpointSections && job.Some? && !job.value.failed && job.value.done == 0
      case Done(_, commitFails) =>
        && Commits(commitFails) && job.value.section < checkpointSections
        && !(job.value.section == checkpointSections - 1 && job.value.last == checkpointHead)
      case _ => false
    }

    /** A checkpoint that is taken: it is above everything stored and above the one before. */
    ghost predicate Takes(event: Event)
      reads this
    {
      && event.Checkpoint? && event.shead.HashOf?
      && checkpointSections <= event.section && storedSections <= event.section
    }

    /** Nothing below the checkpoint is being processed. */
    ghost predicate WorksAbove()
      reads this
    {
      job.Some? ==> checkpointSections <= job.value.section
    }

    twostate predicate Idle()
      reads this
    {
      unchanged(`storedSections, `heads, `knownSections, `cascadedHead, `job)
    }

    /** A step of the processing does its work if the processing is ready for it, and nothing otherwise. */
    twostate predicate Worked(event: Event)
      reads this
    {
      var j := old(job);
      match event
      case Update(chain) =>
        if j == None then Begun(chain) else Idle()
      case ResetFailure =>
        if j.Some? && !j.value.failed && j.value.done == 0
        then storedSections == 0 && heads == map[] && job == Some(j.value.(failed := true)) && unchanged(`knownSections)
        else Idle()
      case Block(read, fails) =>
        if j.Some? && !j.value.failed && j.value.done < sectionSize
        then job == Some(j.value.Next(old(Fits(read, fails)), read)) && unchanged(`storedSections, `heads, `knownSections)
        else Idle()
      case Done(chain, commitFails) =>
        if j.Some? && (j.value.failed || j.value.done == sectionSize) then Finished(chain, commitFails) else Idle()
      case _ => true
    }

    /** A step of the processing, if that is ready for it. */
    method Work(event: Event)
      requires Valid() && (event.Update? || event.ResetFailure? || event.Block? || event.Done?)
      modifies this`storedSections, this`heads, this`knownSections, this`cascadedHead, this`job, this`trusted
      ensures Valid() && (old(Anchored()) ==> (Anchored() <==> !old(Loses(event))))
      ensures old(Anchored() && WorksAbove()) && !event.ResetFailure? ==> Anchored() && WorksAbove()
      ensures Worked(event)
    {
      match event
      case Update(chain) =>
        if job == None { Begin(chain); }
      case ResetFailure =>
        if job.Some? && !job.value.failed && job.value.done == 0 { ResetFails(); }
      case Block(read, fails) =>
        if job.Some? && !job.value.failed && job.value.done < sectionSize { ProcessBlock(read, fails); }
      case Done(chain, commitFails) =>
        if job.Some? && (job.value.failed || job.value.done == sectionSize) { Finish(chain, commitFails); }
    }

    /** What an event from outside the processing does. */
    twostate predicate Heard(event: Event)
      requires 0 < sectionSize
      reads this
    {
      match event
      case ChainHead(head, chain) => Learned(head, chain) && unchanged(`storedSections, `heads, `cascadedHead, `job)
      case ChainFork(head) => Forked(head) && unchanged(`job)
      case Query(chain) => Verified(chain) && unchanged(`knownSections, `cascadedHead, `job)
      case Checkpoint(section, shead) =>
        (if shead.HashOf? then Checkpointed(section, shead) else Idle()) && unchanged(`knownSections, `cascadedHead, `job)
      case _ => true
    }

    /** An event from outside the processing. */
    method Hear(event: Event)
      requires Valid() && (event.ChainHead? || event.ChainFork? || event.Query? || event.Checkpoint?)
      modifies this
      ensures Valid() && Heard(event)
      ensures if old(Takes(event)) then checkpointSections == event.section + 1 && checkpointHead == event.shead && Anchored()
              else unchanged(`checkpointSections, `checkpointHead) && (old(Anchored()) ==> Anchored())
    {
      match event
      case ChainHead(head, chain) => NewHead(head, chain);
      case ChainFork(head) => Fork(head);
      case Query(chain) =>
        var sections, number, head := Sections(chain);
      case Checkpoint(section, shead) =>
        if shead.HashOf? { AddCheckpoint(section, shead); }
    }

    /** One event; the steps of the processing do nothing where the processing is not ready for them. The checkpoint
        stays in its place if and only if the event does not lose it. */
    method Step(event: Event)
      requires Valid()
      modifies this
      ensures Valid() && Heard(event) && Worked(event)
      ensures if old(Takes(event)) then checkpointSections == event.section + 1 && checkpointHead == event.shead && Anchored()
              else checkpointSections == old(checkpointSections) && checkpointHead == old(checkpointHead)
      ensures old(Anchored()) ==> (Anchored() <==> !old(Loses(event)))
      ensures old(Anchored() && WorksAbove()) && !event.Checkpoint? && !event.ResetFailure? ==> Anchored() && WorksAbove()
    {
      if event.ChainHead? || event.ChainFork? || event.Query? || event.Checkpoint? {
        Hear(event);
      } else {
        Work(event);
      }
    }

    /** Processes every block of the section that was taken up, on a chain that stays as it is: this succeeds exactly if
        the head the section builds on is canonical. */
    method ProcessSection(chain: Markers)
      requires Valid() && job.Some? && !job.value.failed && job.value.done == 0 && job.value.last == job.value.oldHead
      requires ParentLinked(chain) && Marker(chain, Start(job.value.section + 1, sectionSize) - 1) != Zero
      modifies this
      ensures Valid() && job.Some? && unchanged(`storedSections, `heads, `knownSections, `checkpointSections)
      ensures job.value.section == old(job.value).section && job.value.oldHead == old(job.value).oldHead
      ensures !job.value.failed <==> job.value.oldHead == Marker(chain, Start(job.value.section, sectionSize) - 1)
      ensures !job.value.failed ==>
                job.value.done == sectionSize && job.value.last == Marker(chain, Start(job.value.section + 1, sectionSize) - 1)
    {
      var j := job.value;
      var first := Start(j.section, sectionSize);
      while !job.value.failed && job.value.done < sectionSize
        invariant Valid() && job.Some? && unchanged(`storedSections, `heads, `knownSections, `checkpointSections)
        invariant job.value.section == j.section && job.value.oldHead == j.oldHead
        invariant !job.value.failed ==>
                    if job.value.done == 0 then job.value.last == j.oldHead
                    else && j.oldHead == Marker(chain, first - 1)
                         && job.value.last == Marker(chain, first + job.value.done - 1)
        invariant job.value.failed ==> j.oldHead != Marker(chain, first - 1)
        decreases !job.value.failed, sectionSize - job.value.done
      {
        ghost var n := first + job.value.done;
        MarkedBelow(chain, first + sectionSize - 1, n);
        assert LinkedAt(chain, n);
        Step(Block(HeaderAt(chain, first + job.value.done), false));
      }
    }

    /** One round of the update loop on a chain that stays as it is.  Of the stored sections, those at the top whose
        heads are not canonical go, down to the checkpoint; `left` stay. One more section is stored, with its
        canonical head, exactly if the head of the last one left is canonical; otherwise the known sections are given up. */
    method UpdateSection(chain: Markers) returns (ghost left: nat)
      requires Valid() && job == None && storedSections < knownSections
      requires ParentLinked(chain) && Marker(chain, Start(knownSections, sectionSize) - 1) != Zero
      modifies this
      ensures Valid() && job == None && left <= old(storedSections) && unchanged(`checkpointSections)
      ensures forall s :: left <= s < old(storedSections) ==> old(!IsCanonicalHead(chain, s))
      ensures left < old(storedSections) ==> checkpointSections <= left
      ensures checkpointSections < left ==> old(Grounded(chain, left))
      ensures forall s :: s < left ==> SectionHead(s) == old(SectionHead(s))
      ensures if old(Grounded(chain, left))
              then storedSections == left + 1 && IsCanonicalHead(chain, left) && knownSections == old(knownSections)
              else storedSections == left == knownSections
    {
      Step(Update(chain));
      left := storedSections;
      KnownBlocks(chain, left + 1, knownSections, sectionSize);
      ProcessSection(chain);
      Step(Done(chain, false));
    }

    /** Repeating this stores all known sections, each with its canonical head, exactly if the head of the last section
        that stays is canonical. */
    method CatchUp(chain: Markers) returns (ghost left: nat)
      requires Valid() && job == None
      requires ParentLinked(chain) && (0 < knownSections ==> Marker(chain, Start(knownSections, sectionSize) - 1) != Zero)
      modifies this
      ensures Valid() && job == None && left <= old(storedSections) && unchanged(`checkpointSections) && knownSections <= storedSections
      ensures old(knownSections <= storedSections) ==> left == storedSections == old(storedSections)
      ensures old(storedSections < knownSections) ==>
                && (forall s :: left <= s < old(storedSections) ==> old(!IsCanonicalHead(chain, s)))
                && (left < old(storedSections) ==> checkpointSections <= left)
                && (checkpointSections < left ==> old(Grounded(chain, left)))
                && if old(Grounded(chain, left))
                   then && storedSections == knownSections == old(knownSections)
                        && forall s :: left <= s < storedSections ==> IsCanonicalHead(chain, s)
                   else storedSections == left == knownSections
      ensures forall s :: s < left ==> SectionHead(s) == old(SectionHead(s))
    {
      left := storedSections;
      if storedSections < knownSections {
        left := UpdateSection(chain);
        while storedSections < knownSections
          invariant unchanged(`checkpointSections) && Valid() && job == None && left <= storedSections <= knownSections
          invariant if old(Grounded(chain, left))
                    then && knownSections == old(knownSections) && left < storedSections
                         && forall s :: left <= s < storedSections ==> IsCanonicalHead(chain, s)
                    else storedSections == left == knownSections
          invariant forall s :: s < left ==> SectionHead(s) == old(SectionHead(s))
          decreases knownSections - storedSections
        {
          ghost var stored := storedSections;
          assert IsCanonicalHead(chain, stored - 1) && Grounded(chain, stored);
          label Before:
          ghost var kept := UpdateSection(chain);
          forall s | left <= s < storedSections ensures IsCanonicalHead(chain, s) {
            assert s < stored ==> old@Before(IsCanonicalHead(chain, s)) && SectionHead(s) == old@Before(SectionHead(s));
          }
        }
      }
    }

    /** Every interleaving of head events, forks, queries and the steps of the processing keeps the index valid. Only
        checkpoints raise the trusted sections. A checkpoint below which nothing is processed stays in its place
        while no other one comes and the backend can start every section. */
    method Run(events: seq<Event>)
      requires Valid()
      modifies this
      ensures Valid() && old(checkpointSections) <= checkpointSections
      ensures checkpointSections == old(checkpointSections)
              || exists i :: 0 <= i < |events| && events[i].Checkpoint? && checkpointSections == events[i].section + 1
      ensures (forall i :: 0 <= i < |events| ==> !events[i].Checkpoint?) ==>
                checkpointSections == old(checkpointSections) && checkpointHead == old(checkpointHead)
      ensures old(Anchored() && WorksAbove()) ==>
                (forall i :: 0 <= i < |events| ==> !events[i].Checkpoint? && !events[i].ResetFailure?) ==> Anchored()
    {
      for i := 0 to |events|
        invariant Valid() && old(checkpointSections) <= checkpointSections
        invariant checkpointSections == old(checkpointSections)
                  || exists j :: 0 <= j < i && events[j].Checkpoint? && checkpointSections == events[j].section + 1
        invariant (forall j :: 0 <= j < i ==> !events[j].Checkpoint?) ==>
                    checkpointSections == old(checkpointSections) && checkpointHead == old(checkpointHead)
        invariant old(Anchored() && WorksAbove()) ==>
                    (forall j :: 0 <= j < i ==> !events[j].Checkpoint? && !events[j].ResetFailure?) ==>
                      Anchored() && WorksAbove()
      {
        Step(events[i]);
      }
    }
  }

  /** A checkpoint is lost when the backend cannot start the section after it. */
  method CheckpointIsDropped(shead: Hash) returns (indexer: ChainIndexer)
    requires shead.HashOf?
    ensures indexer.Valid() && indexer.checkpointSections == 1 && indexer.checkpointHead == shead
    ensures indexer.storedSections == 0 && indexer.SectionHead(0) == Zero
  {
    var chain: Markers := map[0 := shead];
    indexer := new ChainIndexer(1, 0);
    indexer.AddCheckpoint(0, shead);
    indexer.NewHead(1, chain);
    indexer.Begin(chain);
    indexer.ResetFails();
  }

  /** A checkpoint for the section being processed is replaced when that section is stored. */
  method CheckpointIsReplaced(genesis: Header, shead: Hash) returns (indexer: ChainIndexer)
    requires genesis.number == 0 && genesis.parentHash == Zero && shead.HashOf? && shead != genesis.Hash()
    ensures indexer.Valid() && indexer.checkpointSections == 1 && indexer.checkpointHead == shead
    ensures indexer.storedSections == 1 && indexer.SectionHead(0) == genesis.Hash()
  {
    var chain: Markers := map[0 := genesis.Hash()];
    indexer := new ChainIndexer(1, 0);
    indexer.NewHead(0, chain);
    indexer.Begin(chain);
    indexer.AddCheckpoint(0, shead);
    indexer.ProcessBlock(Some(genesis), false);
    indexer.Finish(chain, false);
  }

  /** A checkpoint that comes while a lower section is processed is lost when that section is stored. */
  method CheckpointGetsLost(shead: Hash) returns (indexer: ChainIndexer)
    requires shead.HashOf?
    ensures indexer.Valid() && indexer.checkpointSections == 6 && indexer.storedSections == 1
    ensures indexer.checkpointHead == shead && indexer.SectionHead(5) == Zero
  {
    var genesis := Header(Zero, 0, 1, []);
    var chain: Markers := map[0 := genesis.Hash()];
    indexer := new ChainIndexer(1, 0);
    indexer.NewHead(0, chain);
    indexer.Begin(chain);
    indexer.AddCheckpoint(5, shead);
    indexer.ProcessBlock(Some(genesis), false);
    indexer.Finish(chain, false);
  }
}
