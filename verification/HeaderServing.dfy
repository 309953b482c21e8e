/** How eth/handler.go answers a header query. */
module HeaderServing {
  import opened Basics
  import opened Headers
  import opened HeaderChains

  const SOFT_RESPONSE_LIMIT := 2 * 1024 * 1024
  const EST_HEADER_SIZE := 500
  const MAX_HEADER_FETCH := 192
  const MAX_NON_CANONICAL := 100

  /** Origin by hash, or by number if `hash` is `Zero`. */
  datatype Query = Query(hash: Hash, number: uint64, amount: uint64, skip: uint64, reverse: bool)
  {
    /** `skip + 1`, wrapped around. */
    function Step(): uint64 {
      (skip + 1) % TWO_64
    }

    /** The most headers an answer can hold; an amount from 2^63 on reads as a negative one. */
    function Limit(): (most: nat)
      ensures most <= 192 && (amount < TWO_64 / 2 ==> most <= amount && (most == amount || most == 192))
    {
      if TWO_64 / 2 <= amount then 0 else if amount < MAX_HEADER_FETCH then amount else MAX_HEADER_FETCH
    }
  }

  /** `next` is `skip + 1` parent links from `h`: below it, or above it on the canonical chain. */
  ghost predicate Apart(markers: Markers, h: Hash, next: Hash, query: Query) {
    if query.reverse then next == Up(h, query.skip + 1) else h == Up(next, query.skip + 1) && IsCanonical(markers, next)
  }

  /** The number after `n` in number mode, if there is one. */
  function NextNumber(n: uint64, query: Query): (next: Option<uint64>)
    ensures if query.reverse
            then (query.skip + 1 <= n ==> next == Some(n - query.skip - 1)) && (n < query.skip + 1 < TWO_64 ==> next == None)
            else n + query.skip + 1 < TWO_64 ==> next == Some(n + query.skip + 1)
  {
    if !query.reverse then Some((n + query.Step()) % TWO_64)
    else if query.Step() <= n then Some(n - query.Step()) else None
  }

  /** No header `skip + 1` from `h` can be served from a chain whose head has number `top`. */
  ghost predicate AtEnd(h: Header, top: uint64, query: Query) {
    if query.reverse then h.number < query.skip + 1 else top < h.number + query.skip + 1
  }

  /** No canonical header is `skip + 1` links above `h`. */
  ghost predicate NoneAbove(markers: Markers, h: Header, query: Query) {
    var next := Marker(markers, h.number + query.skip + 1);
    next == Zero || Up(next, query.skip + 1) != h.Hash()
  }

  /** The links off the canonical chain on the way from each of `served` to the header `step` links above. */
  ghost function SideLinks(markers: Markers, served: seq<Header>, step: nat): nat {
    if served == [] then 0
    else SideLinks(markers, served[..|served| - 1], step) + SideSteps(markers, served[|served| - 1].Hash(), step)
  }

  /** The headers `served` are the last ones that can be: there is no header `skip + 1` links further, or it takes more
      than 100 links off the canonical chain to get there. */
  ghost predicate Stops(markers: Markers, served: seq<Header>, query: Query)
    requires served != []
  {
    var last := served[|served| - 1];
    if query.reverse
    then last.number < query.skip + 1 || (query.skip != 0 && 100 < SideLinks(markers, served, query.skip + 1))
    else NoneAbove(markers, last, query)
  }

  method ServeByNumber(chain: HeaderChain, query: Query) returns (served: seq<Header>)
    requires chain.Valid() && query.hash == Zero
    modifies chain`headerCache
    ensures chain.Valid() && |served| <= query.Limit()
    ensures forall i :: 0 <= i < |served| ==> IsCanonical(chain.markers, served[i].Hash())
    ensures served != [] ==> served[0].number == query.number
    ensures forall i :: 0 < i < |served| ==> NextNumber(served[i - 1].number, query) == Some(served[i].number)
    ensures |served| < query.Limit() ==>
              if served == [] then chain.currentHeader.number < query.number
              else var next := NextNumber(served[|served| - 1].number, query);
                   next == None || chain.currentHeader.number < next.value
  {
    served := [];
    var number: uint64, unknown := query.number, false;
    while !unknown && |served| < query.Limit() && |served| * EST_HEADER_SIZE < SOFT_RESPONSE_LIMIT
      modifies chain`headerCache
      invariant chain.Valid() && |served| <= query.Limit()
      invariant forall i :: 0 <= i < |served| ==> IsCanonical(chain.markers, served[i].Hash())
      invariant served != [] ==> served[0].number == query.number
      invariant forall i :: 0 < i < |served| ==> NextNumber(served[i - 1].number, query) == Some(served[i].number)
      invariant served == [] ==> number == query.number && !unknown
      invariant served != [] ==>
                  NextNumber(served[|served| - 1].number, query) == if unknown then None else Some(number)
      decreases !unknown, query.Limit() - |served|
    {
      var header := chain.GetHeaderByNumber(number);
      if header == None {
        break;
      }
      served := served + [header.value];
      if query.reverse {
        if query.Step() <= number {
          number := number - query.Step();
        } else {
          unknown := true;
        }
      } else {
        number := (number + query.Step()) % TWO_64;
      }
    }
  }

  method AdvanceDown(chain: HeaderChain, query: Query, header: Header, budget: nat)
    returns (origin: Hash, number: uint64, unknown: bool, left: nat)
    requires chain.Valid() && header.Hash() in chain.headers && query.reverse
    modifies chain`headerCache
    ensures chain.Valid()
    ensures !unknown ==> origin in chain.headers && origin.HashOf? && origin.header.number == number
    ensures !unknown ==> origin == Up(header.Hash(), query.skip + 1)
    ensures IsCanonical(chain.markers, header.Hash()) ==>
              if unknown then header.number < query.skip + 1 else IsCanonical(chain.markers, origin)
    ensures unknown <==> header.number < query.skip + 1
                         || (query.skip != 0 && budget < SideSteps(chain.markers, header.Hash(), query.skip + 1))
    ensures query.skip == 0 ==> left == budget
    ensures !unknown && query.skip != 0 ==> left == budget - SideSteps(chain.markers, header.Hash(), query.skip + 1)
  {
    if query.Step() == 0 {
      return header.Hash(), header.number, true, budget;
    }
    var ancestor := query.Step();
    assert ancestor == query.skip + 1;
    if ancestor <= header.number {
      AncestorInTree(chain.headers, chain.genesis, header.Hash(), header.number - ancestor);
      if IsCanonical(chain.markers, header.Hash()) {
        chain.Shortcut(header.Hash(), ancestor);
      }
    }
    origin, number, left := chain.GetAncestor(header.Hash(), header.number, ancestor, budget);
    unknown := origin == Zero;
  }

  /** The overflow test sees every wrap-around. */
  lemma Overflow(n: uint64, query: Query, next: uint64)
    requires next == (n + query.Step()) % TWO_64
    ensures if n < next then next == n + query.skip + 1 && query.Step() == query.skip + 1 else MAX_UINT64 < n + query.skip + 1
  {
  }

  method AdvanceUp(chain: HeaderChain, query: Query, header: Header, budget: nat)
    returns (origin: Hash, number: uint64, unknown: bool, left: nat)
    requires chain.Valid() && header.Hash() in chain.headers && !query.reverse
    modifies chain`headerCache
    ensures chain.Valid()
    ensures !unknown ==> origin in chain.headers && origin.HashOf? && origin.header.number == number
    ensures !unknown ==> header.Hash() == Up(origin, query.skip + 1) && IsCanonical(chain.markers, origin)
    ensures IsCanonical(chain.markers, header.Hash()) && unknown ==> chain.currentHeader.number < header.number + query.skip + 1
    ensures unknown <==> NoneAbove(chain.markers, header, query)
  {
    origin, number, unknown, left := header.Hash(), header.number, true, budget;
    var next := (header.number + query.Step()) % TWO_64;
    Overflow(header.number, query, next);
    if header.number < next {
      var above := chain.GetHeaderByNumber(next);
      if above.Some? {
        chain.Shortcut(above.value.Hash(), query.Step());
        assert above.value.Hash() == Marker(chain.markers, next);
        var expected, at;
        expected, at, left := chain.GetAncestor(above.value.Hash(), next, query.Step(), budget);
        if expected == header.Hash() {
          return above.value.Hash(), next, false, left;
        }
      }
    }
  }

  /** Whether the header `skip + 1` away cannot be reached with `budget` links off the canonical chain. */
  ghost predicate OutOfReach(markers: Markers, header: Header, query: Query, budget: nat) {
    if query.reverse
    then header.number < query.skip + 1
         || (query.skip != 0 && budget < SideSteps(markers, header.Hash(), query.skip + 1))
    else NoneAbove(markers, header, query)
  }

  /** Finds the header `skip + 1` away. */
  method Advance(chain: HeaderChain, query: Query, header: Header, budget: nat)
    returns (origin: Hash, number: uint64, unknown: bool, left: nat)
    requires chain.Valid() && header.Hash() in chain.headers
    modifies chain`headerCache
    ensures chain.Valid()
    ensures !unknown ==> origin in chain.headers && origin.HashOf? && origin.header.number == number
    ensures !unknown ==> Apart(chain.markers, header.Hash(), origin, query)
    ensures IsCanonical(chain.markers, header.Hash()) ==>
              if unknown then AtEnd(header, chain.currentHeader.number, query) else IsCanonical(chain.markers, origin)
    ensures unknown <==> OutOfReach(chain.markers, header, query, budget)
    ensures !unknown && query.reverse && query.skip != 0 ==>
              left == budget - SideSteps(chain.markers, header.Hash(), query.skip + 1)
  {
    if query.reverse {
      origin, number, unknown, left := AdvanceDown(chain, query, header, budget);
    } else {
      origin, number, unknown, left := AdvanceUp(chain, query, header, budget);
    }
  }

  /** An answer so far: it starts at the origin, and each header is followed by one `skip + 1` links from it, as none
      is the last that can be served. */
  ghost predicate Answers(headers: set<Hash>, markers: Markers, query: Query, served: seq<Header>) {
    if served == [] then true
    else
      var before, last := served[..|served| - 1], served[|served| - 1];
      && last.Hash() in headers && Answers(headers, markers, query, before)
      && if before == [] then last.Hash() == query.hash
         else Apart(markers, before[|before| - 1].Hash(), last.Hash(), query) && !Stops(markers, before, query)
  }

  lemma AnswersNext(headers: set<Hash>, markers: Markers, query: Query, served: seq<Header>, next: Header)
    requires Answers(headers, markers, query, served) && next.Hash() in headers
    requires if served == [] then next.Hash() == query.hash
             else Apart(markers, served[|served| - 1].Hash(), next.Hash(), query) && !Stops(markers, served, query)
    ensures Answers(headers, markers, query, served + [next])
    ensures SideLinks(markers, served + [next], query.skip + 1) ==
            SideLinks(markers, served, query.skip + 1) + SideSteps(markers, next.Hash(), query.skip + 1)
  {
    assert (served + [next])[..|served|] == served;
  }

  lemma {:induction false} AnswerInFull(headers: set<Hash>, markers: Markers, query: Query, served: seq<Header>)
    requires Answers(headers, markers, query, served)
    ensures forall i :: 0 <= i < |served| ==> served[i].Hash() in headers
    ensures served != [] ==> served[0].Hash() == query.hash
    ensures forall i :: 0 < i < |served| ==> Apart(markers, served[i - 1].Hash(), served[i].Hash(), query)
    ensures forall i :: 0 < i < |served| ==> !Stops(markers, served[..i], query)
  {
    if served != [] {
      var n := |served| - 1;
      AnswerInFull(headers, markers, query, served[..n]);
      forall i | 0 < i < |served| ensures !Stops(markers, served[..i], query) {
        assert i < n ==> served[..n][..i] == served[..i];
      }
    }
  }

  /** From a canonical origin every header is canonical, and the last that can be served is at an end of the chain. */
  lemma {:induction false} CanonicalAnswer(chain: HeaderChain, query: Query, served: seq<Header>)
    requires chain.Valid() && IsCanonical(chain.markers, query.hash) && served != []
    requires Answers(chain.headers, chain.markers, query, served)
    ensures IsCanonical(chain.markers, served[|served| - 1].Hash())
    ensures SideLinks(chain.markers, served, query.skip + 1) == 0
    ensures Stops(chain.markers, served, query) ==> AtEnd(served[|served| - 1], chain.currentHeader.number, query)
  {
    var n := |served| - 1;
    if n != 0 {
      CanonicalAnswer(chain, query, served[..n]);
      if query.reverse {
        chain.Shortcut(served[n - 1].Hash(), query.skip + 1);
      }
    }
    if !query.reverse && NoneAbove(chain.markers, served[n], query) {
      CanonicalEnds(chain, query, served[n]);
    }
  }

  lemma CanonicalEnds(chain: HeaderChain, query: Query, last: Header)
    requires chain.Valid() && IsCanonical(chain.markers, last.Hash()) && NoneAbove(chain.markers, last, query)
    ensures chain.currentHeader.number < last.number + query.skip + 1
  {
    var n := last.number + query.skip + 1;
    chain.MarkedIsStored(n);
    if n <= chain.currentHeader.number {
      chain.Shortcut(Marker(chain.markers, n), query.skip + 1);
    }
  }

  /** The header of the query's origin, or the one reached. */
  method Fetch(chain: HeaderChain, first: bool, hash: Hash, at: uint64) returns (header: Option<Header>)
    requires chain.Valid() && (!first ==> hash in chain.headers && hash.HashOf? && hash.header.number == at)
    modifies chain`numberCache, chain`headerCache
    ensures chain.Valid() && (header.Some? <==> hash in chain.headers) && (header.Some? ==> header.value.Hash() == hash)
  {
    if first {
      header := chain.GetHeaderByHash(hash);
    } else {
      header := chain.GetHeader(hash, at);
    }
  }

  ghost predicate ReachesInFull(headers: set<Hash>, markers: Markers, query: Query, served: seq<Header>, origin: Hash,
                                number: nat, unknown: bool, budget: nat) {
    && Answers(headers, markers, query, served)
    && (query.reverse && query.skip != 0 && !unknown ==> budget + SideLinks(markers, served, query.skip + 1) == 100)
    && if served == [] then origin == query.hash && !unknown
       else
         && (unknown <==> Stops(markers, served, query))
         && (!unknown ==> && origin in headers && origin.HashOf? && origin.header.number == number
                          && Apart(markers, served[|served| - 1].Hash(), origin, query))
  }

  /** The answer so far leads on to `origin` with `budget` links off the canonical chain left, unless it stops; guarded
      by `Open`. */
  ghost predicate Reaches(headers: set<Hash>, markers: Markers, query: Query, served: seq<Header>, origin: Hash,
                          number: nat, unknown: bool, budget: nat) {
    forall k {:trigger Open(k)} :: Open(k) ==>
      ReachesInFull(headers, markers, query, served, origin, number, unknown, budget)
  }

  lemma ReachesNext(headers: set<Hash>, markers: Markers, query: Query, served: seq<Header>, origin: Hash, number: nat,
                    budget: nat, header: Header, origin': Hash, number': nat, unknown': bool, budget': nat)
    requires Reaches(headers, markers, query, served, origin, number, false, budget)
    requires header.Hash() == origin && origin in headers
    requires unknown' <==> OutOfReach(markers, header, query, budget)
    requires !unknown' && query.reverse && query.skip != 0 ==>
               budget' == budget - SideSteps(markers, header.Hash(), query.skip + 1)
    requires !unknown' ==> && origin' in headers && origin'.HashOf? && origin'.header.number == number'
                           && Apart(markers, header.Hash(), origin', query)
    ensures Reaches(headers, markers, query, served + [header], origin', number', unknown', budget')
  {
    assert Open(0);
    AnswersNext(headers, markers, query, served, header);
  }

  lemma ReachedEnd(headers: set<Hash>, markers: Markers, query: Query, served: seq<Header>, origin: Hash, number: nat,
                   unknown: bool, budget: nat)
    requires Reaches(headers, markers, query, served, origin, number, unknown, budget)
    ensures Answers(headers, markers, query, served) && (served == [] ==> !unknown)
    ensures served != [] ==> (unknown <==> Stops(markers, served, query))
  {
    assert Open(0);
  }

  /** One round: `found` is false if the origin is not stored. */
  method ServeNext(chain: HeaderChain, query: Query, served: seq<Header>, origin: Hash, number: uint64, budget: nat)
    returns (found: bool, served': seq<Header>, origin': Hash, number': uint64, unknown: bool, budget': nat)
    requires chain.Valid() && Reaches(chain.headers, chain.markers, query, served, origin, number, false, budget)
    modifies chain`numberCache, chain`headerCache
    ensures chain.Valid() && |served'| == |served| + if found then 1 else 0
    ensures if found then Reaches(chain.headers, chain.markers, query, served', origin', number', unknown, budget')
            else served' == served == [] && query.hash !in chain.headers
  {
    assert Open(0);
    var header := Fetch(chain, served == [], origin, number);
    found, served', origin', number', unknown, budget' := header.Some?, served, origin, number, false, budget;
    if found {
      served' := served + [header.value];
      origin', number', unknown, budget' := Advance(chain, query, header.value, budget);
      ReachesNext(chain.headers, chain.markers, query, served, origin, number, budget, header.value, origin', number', unknown,
                  budget');
    }
  }

  /** Answers from a hash: consecutive headers are `skip + 1` links apart on one chain, and the answer ends at its limit
      or at the first header from which no further one can be reached; from a canonical origin, only at an end of the
      chain. */
  method ServeByHash(chain: HeaderChain, query: Query) returns (served: seq<Header>)
    requires chain.Valid() && query.hash != Zero
    modifies chain`numberCache, chain`headerCache
    ensures chain.Valid() && |served| <= query.Limit()
    ensures forall i :: 0 <= i < |served| ==> served[i].Hash() in chain.headers
    ensures served == [] <==> query.Limit() == 0 || query.hash !in chain.headers
    ensures served != [] ==> served[0].Hash() == query.hash
    ensures forall i :: 0 < i < |served| ==> Apart(chain.markers, served[i - 1].Hash(), served[i].Hash(), query)
    ensures IsCanonical(chain.markers, query.hash) && 0 < |served| < query.Limit() ==>
              AtEnd(served[|served| - 1], chain.currentHeader.number, query)
    ensures 0 < |served| < query.Limit() ==> Stops(chain.markers, served, query)
    ensures forall i :: 0 < i < |served| ==> !Stops(chain.markers, served[..i], query)
  {
    served := [];
    var origin, number, unknown, budget: nat := query.hash, query.number, false, MAX_NON_CANONICAL;
    var found := true;
    while found && !unknown && |served| < query.Limit() && |served| * EST_HEADER_SIZE < SOFT_RESPONSE_LIMIT
      modifies chain`numberCache, chain`headerCache
      invariant chain.Valid() && |served| <= query.Limit()
      invariant found ==> Reaches(chain.headers, chain.markers, query, served, origin, number, unknown, budget)
      invariant !found ==> served == [] && query.hash !in chain.headers
      decreases found, !unknown, query.Limit() - |served|
    {
      found, served, origin, number, unknown, budget := ServeNext(chain, query, served, origin, number, budget);
    }
    if found {
      ReachedEnd(chain.headers, chain.markers, query, served, origin, number, unknown, budget);
    }
    AnswerInFull(chain.headers, chain.markers, query, served);
    if IsCanonical(chain.markers, query.hash) && served != [] {
      CanonicalAnswer(chain, query, served);
    }
  }
}
