/** The header chain of core/headerchain.go: stored headers, total difficulties and canonical markers. */
module HeaderChains {
  import opened Basics
  import opened Headers

  datatype ChainError = NoError | UnknownAncestor | Aborted

  datatype WriteStatus = NonStat | CanonStat | SideStat

  /** A batch of marker writes; `Zero` deletes. */
  type Markers = map<nat, Hash>

  function Marker(markers: Markers, n: int): Hash {
    if n in markers then markers[n] else Zero
  }

  function Written(markers: Markers, batch: Markers): Markers {
    map n | n in markers.Keys + batch.Keys && Marker(if n in batch then batch else markers, n) != Zero ::
      Marker(if n in batch then batch else markers, n)
  }

  /** The markers on `0..n` are the ancestor path of `head`, whose number is `n`, and there are none above. */
  ghost predicate MarksPath(markers: Markers, head: Hash) {
    && head.HashOf?
    && (forall n {:trigger Marker(markers, n)} :: 0 <= n <= head.header.number ==> Marker(markers, n) == AncestorAt(head, n))
    && (forall n {:trigger Marker(markers, n)} :: head.header.number < n ==> Marker(markers, n) == Zero)
  }

  /** The fork choice: higher total difficulty wins; among equals the lower number, then the toss of a coin. */
  predicate Prefers(header: Header, current: Header, coin: bool) {
    var extern, local := TotalDifficulty(header.Hash()), TotalDifficulty(current.Hash());
    extern > local ||
    (extern == local && (header.number < current.number || (header.number == current.number && coin)))
  }

  /** Only between headers of one total difficulty and number does the coin matter, and there it decides. */
  lemma CoinDecides(header: Header, current: Header)
    ensures (forall coin :: Prefers(header, current, coin) <==> coin) <==>
            TotalDifficulty(header.Hash()) == TotalDifficulty(current.Hash()) && header.number == current.number
  {
    assert Prefers(header, current, true) || !Prefers(header, current, true);
    assert Prefers(header, current, false) || !Prefers(header, current, false);
  }

  function Hashes(chain: seq<Header>): set<Hash> {
    set i | 0 <= i < |chain| :: chain[i].Hash()
  }

  lemma HashesNext(chain: seq<Header>, i: nat)
    requires i < |chain|
    ensures Hashes(chain[..i + 1]) == Hashes(chain[..i]) + {chain[i].Hash()}
  {
    forall h | h in Hashes(chain[..i]) + {chain[i].Hash()} ensures h in Hashes(chain[..i + 1]) {
      if h != chain[i].Hash() {
        var j :| 0 <= j < i && chain[..i][j].Hash() == h;
        assert chain[..i + 1][j].Hash() == h;
      } else {
        assert chain[..i + 1][i].Hash() == h;
      }
    }
    forall h | h in Hashes(chain[..i + 1]) ensures h in Hashes(chain[..i]) + {chain[i].Hash()} {
      var j :| 0 <= j <= i && chain[..i + 1][j].Hash() == h;
      assert j < i ==> chain[..i][j].Hash() == h;
    }
  }

  /** A write of a header numbered after its parent, or a rewind. */
  datatype ChainStep = Write(header: Header, coin: bool) | Rewind(head: uint64) {
    predicate Numbered() {
      Write? && header.parentHash.HashOf? ==> header.number == header.parentHash.header.number + 1
    }
  }

  /** `batch` deletes every marker above `number`. */
  ghost predicate DeletesAbove(markers: Markers, batch: Markers, number: nat) {
    && (forall n :: n in batch ==> number < n && batch[n] == Zero)
    && (forall n {:trigger Marker(markers, n)} :: number < n && n !in batch ==> Marker(markers, n) == Zero)
  }

  /** What the walk back from `hash` down to `low` writes. */
  ghost predicate WritesPath(markers: Markers, batch: Markers, hash: Hash, low: nat) {
    && hash.HashOf?
    && (forall n :: n in batch && n <= hash.header.number ==> low < n < hash.header.number && batch[n] == AncestorAt(hash, n))
    && (forall n :: low < n < hash.header.number ==> n in batch)
    && (forall n :: n in batch && hash.header.number < n ==> batch[n] == Zero)
    && (forall n {:trigger Marker(markers, n)} :: hash.header.number < n && n !in batch ==> Marker(markers, n) == Zero)
  }

  lemma MarkerWritten(markers: Markers, batch: Markers, n: int)
    ensures Marker(Written(markers, batch), n) == Marker(if n in batch then batch else markers, n)
  {
  }

  /** Once the walk meets the old path, the batch moves the markers to the path of `hash`. */
  lemma PathMoves(markers: Markers, head: Hash, batch: Markers, hash: Hash, low: nat, markers': Markers)
    requires MarksPath(markers, head) && WritesPath(markers, batch, hash, low)
    requires low < hash.header.number && low <= head.header.number && AncestorAt(head, low) == AncestorAt(hash, low)
    requires markers' == Written(markers, batch[hash.header.number := hash])
    ensures MarksPath(markers', hash)
  {
    forall n: int
      ensures Marker(markers', n) ==
              if n == hash.header.number then hash else Marker(if n in batch then batch else markers, n)
    {
      MarkerWritten(markers, batch[hash.header.number := hash], n);
    }
    forall n | 0 <= n <= low ensures Marker(markers', n) == AncestorAt(hash, n) {
      AncestorTwice(hash, low, n);
      AncestorTwice(head, low, n);
    }
  }

  /** Deleting the markers above an ancestor leaves those of its path. */
  lemma PathShrinks(markers: Markers, top: Hash, marks: set<nat>, head: Hash, markers': Markers)
    requires MarksPath(markers, top) && head.HashOf? && head.header.number <= top.header.number
    requires head == AncestorAt(top, head.header.number) && markers' == markers - marks
    requires forall n :: n in marks ==> head.header.number < n
    requires forall n :: head.header.number < n <= top.header.number ==> n in marks
    ensures MarksPath(markers', head)
  {
    forall n: int ensures Marker(markers', n) == if n in marks then Zero else Marker(markers, n) {
    }
    forall n | 0 <= n <= head.header.number ensures Marker(markers', n) == AncestorAt(head, n) {
      AncestorTwice(top, head.header.number, n);
    }
  }

  /** Every header is the child of the one before it. */
  ghost predicate Contiguous(chain: seq<Header>) {
    forall i :: 0 < i < |chain| ==> chain[i].parentHash == chain[i - 1].Hash() && chain[i].number == chain[i - 1].number + 1
  }

  /** The hash is canonical. */
  ghost predicate IsCanonical(markers: Markers, h: Hash) {
    h.HashOf? && Marker(markers, h.header.number) == h
  }

  /** How many links lead from `h` to a canonical hash, but no more than `most`. */
  ghost function SideSteps(markers: Markers, h: Hash, most: nat): nat {
    if most == 0 || h.Zero? || IsCanonical(markers, h) then 0 else 1 + SideSteps(markers, h.header.parentHash, most - 1)
  }

  lemma {:induction false} SideStepsIsDistance(markers: Markers, h: Hash, most: nat)
    ensures SideSteps(markers, h, most) <= most
    ensures forall j: nat :: j < SideSteps(markers, h, most) ==> !IsCanonical(markers, Up(h, j))
    ensures SideSteps(markers, h, most) < most ==>
              var top := Up(h, SideSteps(markers, h, most)); top.Zero? || IsCanonical(markers, top)
    decreases most
  {
    if most != 0 && h.HashOf? && !IsCanonical(markers, h) {
      SideStepsIsDistance(markers, h.header.parentHash, most - 1);
      forall j: nat | j < SideSteps(markers, h, most) ensures !IsCanonical(markers, Up(h, j)) {
        assert j != 0 ==> Up(h, j) == Up(h.header.parentHash, j - 1);
      }
    }
  }

  /** What is stored from an earlier session. */
  datatype Database = Database(headers: set<Hash>, tds: map<Hash, nat>, markers: Markers, head: Hash)

  /** What the walk back from no hash at all finds: above the head no marker is set, which looks like a match, and
      the marker `ancestor` below is taken for the ancestor. */
  function Phantom(markers: Markers, head: nat, number: nat, ancestor: nat): Hash {
    if head < number && 1 < ancestor <= number then Marker(markers, number - ancestor) else Zero
  }

  class HeaderChain {
    const genesis: Header
    var headers: set<Hash>
    var tds: map<Hash, nat>
    var markers: Markers
    var currentHeader: Header
    var currentHeaderHash: Hash
    var headerCache: set<Hash>
    var tdCache: map<Hash, nat>
    var numberCache: set<Hash>

    /** Everything stored descends from the genesis header, with its total difficulty. */
    ghost predicate Stored()
      reads this
    {
      && Rooted(headers, genesis)
      && (forall h :: h in tds <==> h in headers)
      && (forall h :: h in tds ==> tds[h] == TotalDifficulty(h))
    }

    /** The caches hold only what is stored. */
    ghost predicate Coherent()
      reads this
    {
      && headerCache <= headers && numberCache <= headers
      && forall h :: h in tdCache ==> h in tds && tdCache[h] == tds[h]
    }

    ghost predicate Canonical()
      reads this
    {
      currentHeaderHash == HashOf(currentHeader) && currentHeaderHash in headers && MarksPath(markers, currentHeaderHash)
    }

    ghost predicate Valid()
      reads this
    {
      Stored() && Coherent() && Canonical()
    }

    /** No stored header has a higher total difficulty than the current one, or the same and a lower number. */
    ghost predicate Heaviest()
      reads this
    {
      forall h :: h in headers ==> Leads(currentHeader, h)
    }

    constructor (genesis: Header)
      requires genesis.number == 0
      ensures Valid() && Heaviest() && this.genesis == genesis && currentHeader == genesis
    {
      this.genesis := genesis;
      headers := {HashOf(genesis)};
      tds := map[HashOf(genesis) := genesis.difficulty];
      markers := map[0 := HashOf(genesis)];
      currentHeader := genesis;
      currentHeaderHash := HashOf(genesis);
      headerCache, tdCache, numberCache := {}, map[], {};
    }

    /** Opens a stored chain at its head block, or at the genesis header if that is not stored. Without a genesis
        header there is no chain. */
    static method Load(db: Database) returns (chain: Option<HeaderChain>)
      requires forall h :: h in db.tds <==> h in db.headers
      requires forall h :: h in db.tds ==> db.tds[h] == TotalDifficulty(h)
      requires var root := Marker(db.markers, 0);
               root in db.headers && root.HashOf? ==> root.header.number == 0 && Rooted(db.headers, root.header)
      ensures chain.Some? <==> Marker(db.markers, 0).HashOf? && Marker(db.markers, 0) in db.headers
      ensures chain.Some? ==>
                && fresh(chain.value) && chain.value.headers == db.headers && chain.value.tds == db.tds
                && chain.value.markers == db.markers && chain.value.Stored() && chain.value.Coherent()
                && chain.value.currentHeaderHash == (if db.head in db.headers then db.head else Marker(db.markers, 0))
                && (chain.value.Valid() <==> MarksPath(db.markers, chain.value.currentHeaderHash))
    {
      var root := Marker(db.markers, 0);
      if root == Zero || root !in db.headers {
        return None;
      }
      var hc := new HeaderChain(root.header);
      hc.headers, hc.tds, hc.markers := db.headers, db.tds, db.markers;
      hc.headerCache, hc.tdCache, hc.numberCache := {}, map[], {};
      if db.head in db.headers {
        assert Linked(db.headers, root.header, db.head);
        hc.currentHeader, hc.currentHeaderHash := db.head.header, db.head;
      }
      chain := Some(hc);
    }

    /** The cached getters: with the number of the hash they read what is stored, whatever the cache evicts. */
    method GetTd(hash: Hash, number: int) returns (td: Option<nat>)
      requires Coherent()
      modifies this`tdCache
      ensures Coherent()
      ensures hash.HashOf? && number == hash.header.number ==> (td.Some? <==> hash in tds)
      ensures td.Some? ==> hash in tds && td.value == tds[hash]
    {
      if hash in tdCache {
        return Some(tdCache[hash]);
      }
      if !(hash in tds && hash.HashOf? && hash.header.number == number) {
        return None;
      }
      var tdCache' := tdCache[hash := tds[hash]];
      var cache: map<Hash, nat> :| forall h :: h in cache ==> h in tdCache' && cache[h] == tdCache'[h];
      tdCache := cache;
      return Some(tds[hash]);
    }

    method GetHeader(hash: Hash, number: int) returns (header: Option<Header>)
      requires headerCache <= headers
      modifies this`headerCache
      ensures headerCache <= headers
      ensures hash.HashOf? && number == hash.header.number ==> (header.Some? <==> hash in headers)
      ensures header.Some? ==> hash in headers && hash == HashOf(header.value)
    {
      if hash in headerCache && hash.HashOf? {
        return Some(hash.header);
      }
      if !(hash in headers && hash.HashOf? && hash.header.number == number) {
        return None;
      }
      var cache: set<Hash> :| cache <= headerCache + {hash};
      headerCache := cache;
      return Some(hash.header);
    }

    method StoreHeader(header: Header, td: nat)
      requires Valid() && Linked(headers, genesis, header.Hash()) && td == TotalDifficulty(header.Hash())
      modifies this`headers, this`tds
      ensures Valid() && headers == old(headers) + {header.Hash()}
    {
      GrowTree(headers, genesis, header.Hash());
      tds := tds[header.Hash() := td];
      headers := headers + {header.Hash()};
    }

    method CacheHeader(header: Header, td: nat)
      requires Valid() && header.Hash() in headers && td == TotalDifficulty(header.Hash())
      modifies this`headerCache, this`tdCache, this`numberCache
      ensures Valid()
    {
      var hash := header.Hash();
      var tdCache' := tdCache[hash := td];
      var cache: map<Hash, nat> :| forall h :: h in cache ==> h in tdCache' && cache[h] == tdCache'[h];
      tdCache := cache;
      var headers': set<Hash> :| headers' <= headerCache + {hash};
      var numbers': set<Hash> :| numbers' <= numberCache + {hash};
      headerCache, numberCache := headers', numbers';
    }

    /** The walk is not at the root yet, and the parent it goes on to is stored. */
    lemma WalkStep(hash: Hash, at: Hash, batch: Markers, batch': Markers, n: nat)
      requires Valid() && at in headers && at.HashOf? && at.header.number == n && at == AncestorAt(hash, n)
      requires Marker(markers, n) != at && WritesPath(markers, batch, hash, n) && batch' == batch[n := at]
      requires n < hash.header.number
      ensures 0 < n && at.header.parentHash in headers && at.header.parentHash == AncestorAt(hash, n - 1)
      ensures at.header.parentHash.HashOf? && at.header.parentHash.header.number == n - 1
      ensures WritesPath(markers, batch', hash, n - 1)
    {
      assert Linked(headers, genesis, at) && Linked(headers, genesis, currentHeaderHash);
      if n == 0 {
        RootIsLowest(headers, genesis, at);
        AncestorInTree(headers, genesis, currentHeaderHash, 0);
        RootIsLowest(headers, genesis, AncestorAt(currentHeaderHash, 0));
        assert false;
      }
      AncestorTwice(hash, n, n - 1);
    }

    method DeleteMarkersAbove(number: nat) returns (batch: Markers)
      requires Valid()
      ensures DeletesAbove(markers, batch, number)
    {
      batch := map[];
      var i := number + 1;
      while Marker(markers, i) != Zero
        invariant number < i && forall n :: n in batch <==> number < n < i
        invariant forall n :: n in batch ==> batch[n] == Zero
        decreases currentHeader.number - i
      {
        batch := batch[i := Zero];
        i := i + 1;
      }
      if i <= currentHeader.number {
        AncestorInTree(headers, genesis, currentHeaderHash, i);
        assert false;
      }
    }

    method WalkToCanonical(header: Header) returns (batch: Markers, headNumber: nat)
      requires Valid() && header.Hash() in headers && 0 < header.number
      modifies this`headerCache
      ensures Valid() && headNumber < header.number && headNumber <= currentHeader.number
      ensures WritesPath(markers, batch, header.Hash(), headNumber)
      ensures AncestorAt(currentHeaderHash, headNumber) == AncestorAt(header.Hash(), headNumber)
    {
      var hash, number := header.Hash(), header.number;
      assert Linked(headers, genesis, hash);
      batch := DeleteMarkersAbove(number);
      var headHash := header.parentHash;
      headNumber := number - 1;
      var headHeader := GetHeader(headHash, headNumber);
      while Marker(markers, headNumber) != headHash
        modifies this`headerCache
        invariant headNumber < number && headHash in headers && headHash.HashOf? && headerCache <= headers
        invariant headHash == AncestorAt(hash, headNumber) && headHeader == Some(headHash.header)
        invariant headHash.header.number == headNumber
        invariant WritesPath(markers, batch, hash, headNumber)
        decreases headNumber
      {
        WalkStep(hash, headHash, batch, batch[headNumber := headHash], headNumber);
        batch := batch[headNumber := headHash];
        headHash, headNumber := headHeader.value.parentHash, headHeader.value.number - 1;
        headHeader := GetHeader(headHash, headNumber);
      }
    }

    /** Deletes the markers above the new head and rewrites those below it down to the old canonical chain. */
    method MoveHead(header: Header)
      requires Valid() && header.Hash() in headers && 0 < header.number
      modifies this`markers, this`currentHeader, this`currentHeaderHash, this`headerCache
      ensures Valid() && currentHeader == header
    {
      var hash, number := header.Hash(), header.number;
      assert Linked(headers, genesis, hash);
      var batch, low := WalkToCanonical(header);
      ghost var markers0, head0 := markers, currentHeaderHash;
      markers := Written(markers, batch[number := hash]);
      PathMoves(markers0, head0, batch, hash, low, markers);
      currentHeaderHash, currentHeader := hash, header;
    }

    /** Stores a header whose parent is known, and makes it the head if the fork choice says so. */
    method WriteHeader(header: Header, coin: bool) returns (status: WriteStatus, err: ChainError)
      requires Valid()
      requires header.parentHash in headers && header.parentHash.HashOf? ==>
                 header.number == header.parentHash.header.number + 1
      modifies this
      ensures Valid() && (old(Heaviest()) ==> Heaviest())
      ensures err == if header.parentHash in old(headers) then NoError else UnknownAncestor
      ensures headers == if err == NoError then old(headers) + {header.Hash()} else old(headers)
      ensures status == if err != NoError then NonStat
                        else if Prefers(header, old(currentHeader), coin) then CanonStat else SideStat
      ensures status == CanonStat ==> currentHeader == header
      ensures status != CanonStat ==> currentHeader == old(currentHeader) && markers == old(markers)
    {
      var number: int := header.number;
      assert Linked(headers, genesis, currentHeaderHash);
      assert header.parentHash in headers ==> Linked(headers, genesis, header.parentHash);
      var ptd := GetTd(header.parentHash, number - 1);
      if ptd == None {
        return NonStat, UnknownAncestor;
      }
      var head := currentHeader.number;
      var localTd := GetTd(currentHeaderHash, head);
      var externTd := header.difficulty + ptd.value;
      StoreHeader(header, externTd);
      var reorg := externTd > localTd.value ||
        (externTd == localTd.value && (number < head || (number == head && coin)));
      if reorg {
        MoveHead(header);
        status := CanonStat;
      } else {
        status := SideStat;
      }
      err := NoError;
      CacheHeader(header, externTd);
    }

    method HasHeader(hash: Hash, number: nat) returns (has: bool)
      requires Coherent()
      ensures has ==> hash in headers
      ensures hash.HashOf? && number == hash.header.number ==> (has <==> hash in headers)
    {
      if hash in numberCache || hash in headerCache {
        return true;
      }
      has := hash in headers && hash.HashOf? && hash.header.number == number;
    }

    /** Imports one header, unless it is known and no heavier than the head. */
    method InsertHeader(header: Header, coin: bool) returns (err: ChainError)
      requires Valid()
      requires header.parentHash in headers && header.parentHash.HashOf? ==>
                 header.number == header.parentHash.header.number + 1
      modifies this
      ensures Valid() && (old(Heaviest()) ==> Heaviest())
      ensures err == if header.parentHash in old(headers) || header == genesis then NoError else UnknownAncestor
      ensures headers == if err == NoError then old(headers) + {header.Hash()} else old(headers)
    {
      var hash := header.Hash();
      assert hash in headers ==> Linked(headers, genesis, hash);
      assert Linked(headers, genesis, currentHeaderHash);
      var has := HasHeader(hash, header.number);
      if has {
        var externTd := GetTd(hash, header.number);
        var localTd := GetTd(currentHeaderHash, currentHeader.number);
        if externTd == None || externTd.value <= localTd.value {
          return NoError;
        }
      }
      RootIsLightest(headers, genesis, currentHeaderHash);
      var status;
      status, err := WriteHeader(header, coin);
    }

    /** One round of `InsertHeaderChain`; only the first header can lack its parent. */
    method InsertNext(chain: seq<Header>, i: nat, coin: bool, ghost known: set<Hash>) returns (err: ChainError)
      requires Valid() && i < |chain| && Contiguous(chain) && headers == known + Hashes(chain[..i])
      requires i == 0 && chain[0].parentHash in known && chain[0].parentHash.HashOf? ==>
                 chain[0].number == chain[0].parentHash.header.number + 1
      modifies this
      ensures Valid() && (old(Heaviest()) ==> Heaviest())
      ensures err == if 0 < i || chain[0].parentHash in known || chain[0] == genesis then NoError else UnknownAncestor
      ensures headers == if err == NoError then known + Hashes(chain[..i + 1]) else known
    {
      if 0 < i {
        assert chain[..i][i - 1].Hash() in headers;
      } else {
        assert headers == known;
      }
      HashesNext(chain, i);
      err := InsertHeader(chain[i], coin);
    }

    /** Imports a validated chain of headers: it all goes in unless the first parent is unknown or, before
        header `interrupt`, the import is aborted; `failed` is the header at which it stops. */
    method InsertHeaderChain(chain: seq<Header>, coins: seq<bool>, interrupt: nat) returns (failed: nat, err: ChainError)
      requires Valid() && chain != [] && |coins| == |chain| && Contiguous(chain)
      requires chain[0].parentHash in headers && chain[0].parentHash.HashOf? ==>
                 chain[0].number == chain[0].parentHash.header.number + 1
      modifies this
      ensures Valid() && (old(Heaviest()) ==> Heaviest())
      ensures err == if interrupt == 0 then Aborted
                     else if chain[0].parentHash !in old(headers) && chain[0] != genesis then UnknownAncestor
                     else if interrupt < |chain| then Aborted else NoError
      ensures failed == if err == Aborted then interrupt else 0
      ensures headers == old(headers) + Hashes(chain[..if err == NoError then |chain| else failed])
    {
      ghost var known := headers;
      var i := 0;
      while i < |chain|
        invariant Valid() && i <= interrupt && i <= |chain| && (old(Heaviest()) ==> Heaviest())
        invariant headers == known + Hashes(chain[..i])
        invariant 0 < i ==> chain[0].parentHash in known || chain[0] == genesis
      {
        if i == interrupt {
          return i, Aborted;
        }
        var e := InsertNext(chain, i, coins[i], known);
        if e != NoError {
          return i, e;
        }
        i := i + 1;
      }
      return 0, NoError;
    }

    /** After `used` single links from `hash`, the walk is at `h`. */
    ghost predicate Walking(hash: Hash, ancestor: nat, h: Hash, n: nat, rest: nat, used: nat)
      reads `headers, `markers
    {
      && h in headers && h.HashOf? && h.header.number == n && rest <= n && used + rest == ancestor && h == Up(hash, used)
      && SideSteps(markers, hash, ancestor) == used + SideSteps(markers, h, rest)
    }

    lemma WalkOn(hash: Hash, ancestor: nat, h: Hash, n: nat, rest: nat, used: nat, rest': nat)
      requires Valid() && Walking(hash, ancestor, h, n, rest, used) && 0 < rest == rest' + 1 && Marker(markers, n) != h
      ensures Walking(hash, ancestor, h.header.parentHash, n - 1, rest', used + 1)
      ensures used < SideSteps(markers, hash, ancestor)
    {
      assert Linked(headers, genesis, h);
      UpTwice(hash, used, 1);
      assert Up(h, 1) == h.header.parentHash;
    }

    /** From a canonical hash, the markers give every ancestor. */
    lemma Shortcut(h: Hash, k: nat)
      requires Valid() && IsCanonical(markers, h) && k <= h.header.number
      ensures h in headers && Marker(markers, h.header.number - k) == Up(h, k) && IsCanonical(markers, Up(h, k))
      ensures SideSteps(markers, h, k) == 0
    {
      var n := h.header.number;
      assert h == AncestorAt(currentHeaderHash, n);
      AncestorInTree(headers, genesis, currentHeaderHash, n);
      AncestorInTree(headers, genesis, h, n - k);
      AncestorTwice(currentHeaderHash, n, n - k);
    }

    /** The markers at and below the head, and only these, are set. */
    lemma MarkedIsStored(n: int)
      requires Valid()
      ensures 0 <= n <= currentHeader.number <==> Marker(markers, n) != Zero
      ensures Marker(markers, n) != Zero ==> Marker(markers, n) in headers && Marker(markers, n).header.number == n
      ensures Zero !in headers
    {
      if 0 <= n <= currentHeader.number {
        AncestorInTree(headers, genesis, currentHeaderHash, n);
      }
      assert Zero in headers ==> Linked(headers, genesis, Zero);
    }

    /** An answer `ancestor` links up from `hash`: the ancestor if there is one within `budget` links of the canonical
        chain, the phantom of no hash at all, and nothing for an unknown hash. */
    ghost predicate Answers(hash: Hash, number: nat, ancestor: nat, budget: nat, found: Hash, at: nat, left: nat)
      reads `headers, `markers, `currentHeader
    {
      && left <= budget && at <= number
      && (hash.HashOf? && number == hash.header.number && found != Zero ==>
            found == Up(hash, ancestor) && at + ancestor == number)
      && (hash in headers && hash.HashOf? && number == hash.header.number ==>
            if SideSteps(markers, hash, ancestor) <= budget
            then found != Zero && left == budget - SideSteps(markers, hash, ancestor)
            else found == Zero)
      && (hash == Zero ==> found == Phantom(markers, currentHeader.number, number, ancestor))
      && (hash != Zero && hash !in headers ==> found == if ancestor == 0 then hash else Zero)
    }

    /** The walk is at `h` with `rest` links to go; from an unknown hash it does not move. */
    ghost predicate OnWayInFull(hash: Hash, number: nat, ancestor: nat, budget: nat, h: Hash, n: nat, rest: nat, left: nat)
      reads `headers, `markers
    {
      && left <= budget && rest <= n && rest <= ancestor && n - rest == number - ancestor
      && (hash in headers && hash.HashOf? && number == hash.header.number ==>
            Walking(hash, ancestor, h, n, rest, budget - left))
      && (hash !in headers ==> h == hash && n == number && rest == ancestor)
    }

    /** The same, guarded by `Open`. */
    ghost predicate OnWay(hash: Hash, number: nat, ancestor: nat, budget: nat, h: Hash, n: nat, rest: nat, left: nat)
      reads `headers, `markers
    {
      forall k {:trigger Open(k)} :: Open(k) ==> OnWayInFull(hash, number, ancestor, budget, h, n, rest, left)
    }

    lemma MarkerAnswers(hash: Hash, number: nat, ancestor: nat, budget: nat, h: Hash, n: nat, rest: nat, left: nat)
      requires Valid() && OnWay(hash, number, ancestor, budget, h, n, rest, left) && rest != 0 && ancestor != 1
      requires Marker(markers, n) == h && rest <= n
      ensures Answers(hash, number, ancestor, budget, Marker(markers, n - rest), n - rest, left)
    {
      assert Open(0);
      MarkedIsStored(n);
      if hash.HashOf? && number == hash.header.number {
        Shortcut(h, rest);
        UpTwice(hash, ancestor - rest, rest);
      }
    }

    lemma NothingAnswers(hash: Hash, number: nat, ancestor: nat, budget: nat, h: Hash, n: nat, rest: nat, left: nat)
      requires Valid() && OnWay(hash, number, ancestor, budget, h, n, rest, left) && rest != 0 && ancestor != 1
      requires Marker(markers, n) != h && (left == 0 || !(h in headers && h.HashOf? && h.header.number == n))
      ensures Answers(hash, number, ancestor, budget, Zero, 0, if left == 0 then 0 else left - 1)
    {
      assert Open(0);
      MarkedIsStored(n);
      if hash in headers && hash.HashOf? && number == hash.header.number {
        WalkOn(hash, ancestor, h, n, rest, budget - left, rest - 1);
      }
    }

    lemma OnWayNext(hash: Hash, number: nat, ancestor: nat, budget: nat, h: Hash, n: nat, rest: nat, left: nat)
      requires Valid() && OnWay(hash, number, ancestor, budget, h, n, rest, left) && rest != 0 && left != 0
      requires Marker(markers, n) != h && h in headers && h.HashOf? && rest <= n
      ensures OnWay(hash, number, ancestor, budget, h.header.parentHash, n - 1, rest - 1, left - 1)
    {
      assert Open(0);
      if hash in headers && hash.HashOf? && number == hash.header.number {
        WalkOn(hash, ancestor, h, n, rest, budget - left, rest - 1);
      }
    }

    lemma ArrivalAnswers(hash: Hash, number: nat, ancestor: nat, budget: nat, h: Hash, n: nat, left: nat)
      requires Valid() && OnWay(hash, number, ancestor, budget, h, n, 0, left) && ancestor != 1
      ensures Answers(hash, number, ancestor, budget, h, n, left)
    {
      assert Open(0);
      MarkedIsStored(n);
    }

    method WalkBack(hash: Hash, number: nat, ancestor: nat, budget: nat) returns (found: Hash, at: nat, left: nat)
      requires Valid() && ancestor <= number && ancestor != 1
      modifies this`headerCache
      ensures Valid() && Answers(hash, number, ancestor, budget, found, at, left)
    {
      found, at, left := Zero, 0, budget;
      var h, n: nat, rest: nat := hash, number, ancestor;
      while rest != 0
        modifies this`headerCache
        invariant headerCache <= headers && left <= budget && rest <= n
        invariant OnWay(hash, number, ancestor, budget, h, n, rest, left)
        decreases rest
      {
        if Marker(markers, n) == h {
          MarkerAnswers(hash, number, ancestor, budget, h, n, rest, left);
          return Marker(markers, n - rest), n - rest, left;
        }
        if left == 0 {
          NothingAnswers(hash, number, ancestor, budget, h, n, rest, left);
          return;
        }
        left, rest := left - 1, rest - 1;
        var header := GetHeader(h, n);
        if header == None {
          NothingAnswers(hash, number, ancestor, budget, h, n, rest + 1, left + 1);
          return;
        }
        OnWayNext(hash, number, ancestor, budget, h, n, rest + 1, left + 1);
        h, n := header.value.parentHash, n - 1;
      }
      ArrivalAnswers(hash, number, ancestor, budget, h, n, left);
      found, at := h, n;
    }

    /** The hash `ancestor` links up: found by the canonical markers as soon as the walk is on the canonical
        chain, and given up (`Zero`) when that takes more than `budget` single links. */
    method GetAncestor(hash: Hash, number: nat, ancestor: nat, budget: nat)
      returns (found: Hash, at: nat, left: nat)
      requires Valid()
      modifies this`headerCache
      ensures Valid() && left <= budget && at <= number && (ancestor == 1 ==> left == budget)
      ensures hash.HashOf? && number == hash.header.number && found != Zero ==>
                found == Up(hash, ancestor) && at + ancestor == number
      ensures hash in headers && hash.HashOf? && number == hash.header.number ==>
                && (found != Zero <==>
                    ancestor <= number && (ancestor == 1 || SideSteps(markers, hash, ancestor) <= budget))
                && (found != Zero && ancestor != 1 ==> left == budget - SideSteps(markers, hash, ancestor))
      ensures hash == Zero ==> found == Phantom(markers, currentHeader.number, number, ancestor)
      ensures hash == Zero ==> (found != Zero <==> currentHeader.number < number && 1 < ancestor <= number
                                                   && number - ancestor <= currentHeader.number)
      ensures hash == Zero && found != Zero ==> found == AncestorAt(currentHeaderHash, number - ancestor)
      ensures hash != Zero && hash !in headers && ancestor <= number ==> found == if ancestor == 0 then hash else Zero
    {
      MarkedIsStored(number - ancestor);
      found, at, left := Zero, 0, budget;
      if ancestor > number {
        return;
      }
      if ancestor == 1 {
        var header := GetHeader(hash, number);
        if header.Some? {
          found, at := header.value.parentHash, number - 1;
        }
        ghost var known := hash in headers ==> Linked(headers, genesis, hash);
        return;
      }
      found, at, left := WalkBack(hash, number, ancestor, budget);
    }

    /** All headers stored with number `n`. */
    function AllHashes(n: nat): set<Hash>
      reads this
    {
      set h | h in headers && h.HashOf? && h.header.number == n
    }

    ghost predicate Above(batch: set<Hash>, n: nat)
      reads this
    {
      batch == set h | h in headers && h.HashOf? && n < h.header.number
    }

    ghost function From(n: nat): set<Hash>
      reads this
    {
      set h | h in headers && h.HashOf? && n <= h.header.number
    }

    /** The numbers above `num` at which headers are stored, highest first. */
    method NumbersAbove(num: nat) returns (nums: seq<nat>)
      requires Stored()
      ensures forall n :: n in nums ==> num < n && AllHashes(n) != {}
      ensures forall h :: h in headers && h.HashOf? && num < h.header.number ==> h.header.number in nums
    {
      nums := [];
      var n := num + 1;
      while AllHashes(n) != {}
        invariant num < n && forall k :: k in nums <==> num < k < n
        invariant forall k :: k in nums ==> AllHashes(k) != {}
        decreases From(n)
      {
        ghost var h :| h in AllHashes(n);
        assert h in From(n) && h !in From(n + 1) && From(n + 1) <= From(n);
        nums := [n] + nums;
        n := n + 1;
      }
      forall h | h in headers && h.HashOf? && num < h.header.number ensures h.header.number in nums {
        assert forall g :: g in headers && g.HashOf? ==> (g.header.number == n <==> g in AllHashes(n));
        NoneHigher(headers, genesis, n, h);
      }
    }

    /** Adds to the batch the headers, total difficulties and markers at `nums`. */
    method DeleteAll(hdr: Header, nums: seq<nat>, batch: set<Hash>, marks: set<nat>)
      returns (batch': set<Hash>, marks': set<nat>)
      requires forall n :: n in nums ==> AllHashes(n) != {}
      ensures batch' == batch + set h | h in headers && h.HashOf? && h.header.number in nums
      ensures marks' == marks + set n | n in nums
    {
      batch', marks' := batch, marks;
      for i := 0 to |nums|
        invariant batch' == batch + set h | h in headers && h.HashOf? && h.header.number in nums[..i]
        invariant marks' == marks + set n | n in nums[..i]
      {
        var hashes := AllHashes(nums[i]);
        if hashes == {} {
          hashes := {hdr.Hash()};
        }
        batch' := batch' + hashes;
        marks' := marks' + {nums[i]};
      }
    }

    /** The head has moved from `top` to its ancestor; the batch deletes all that is above it, once it moved. */
    ghost predicate Rewinding(top: Hash, batch: set<Hash>, marks: set<nat>, origin: bool)
      reads this
    {
      && Stored() && headerCache <= headers && MarksPath(markers, top) && top in headers
      && currentHeaderHash == HashOf(currentHeader) && currentHeaderHash in headers
      && currentHeader.number <= top.header.number && currentHeaderHash == AncestorAt(top, currentHeader.number)
      && (if origin then batch == {} && currentHeaderHash == top else Above(batch, currentHeader.number))
      && (forall n :: currentHeader.number < n <= top.header.number ==> n in marks)
      && (forall n :: n in marks ==> currentHeader.number < n)
    }

    method RewindOne(ghost top: Hash, batch: set<Hash>, marks: set<nat>, origin: bool)
      returns (batch': set<Hash>, marks': set<nat>)
      requires Rewinding(top, batch, marks, origin) && 0 < currentHeader.number
      modifies this`currentHeader, this`currentHeaderHash, this`headerCache
      ensures Rewinding(top, batch', marks', false) && currentHeader.number == old(currentHeader).number - 1
    {
      var hdr, num := currentHeader, currentHeader.number;
      assert Linked(headers, genesis, currentHeaderHash);
      assert Linked(headers, genesis, hdr.parentHash);
      AncestorTwice(top, num, num - 1);
      var parent := GetHeader(hdr.parentHash, num - 1);
      if parent == None {
        parent := Some(genesis);
      }
      currentHeader := parent.value;
      currentHeaderHash := hdr.parentHash;
      var nums: seq<nat> := [];
      if origin {
        nums := NumbersAbove(num);
      }
      nums := nums + [num];
      assert hdr.Hash() in AllHashes(num);
      batch', marks' := DeleteAll(hdr, nums, batch, marks);
    }

    method ApplyRewind(ghost top: Hash, batch: set<Hash>, marks: set<nat>, ghost origin: bool)
      requires Rewinding(top, batch, marks, origin)
      modifies this`headers, this`tds, this`markers, this`headerCache, this`tdCache, this`numberCache
      ensures Valid()
      ensures headers == if origin then old(headers)
                         else set h | h in old(headers) && h.HashOf? && h.header.number <= currentHeader.number
    {
      ghost var low := set h | h in headers && h.HashOf? && h.header.number <= currentHeader.number;
      PruneTree(headers, genesis, currentHeader.number, low);
      assert headers - batch == if origin then headers else low by {
        forall h | h in headers ensures h.HashOf? {
          assert Linked(headers, genesis, h);
        }
      }
      headers := headers - batch;
      tds := tds - batch;
      PathShrinks(markers, top, marks, currentHeaderHash, markers - marks);
      markers := markers - marks;
      headerCache, tdCache, numberCache := {}, map[], {};
    }

    /** Rewinds the chain to `head`; a chain that is not above it stays as it is. */
    method SetHead(head: nat)
      requires Valid()
      modifies this
      ensures Valid()
      ensures currentHeaderHash == AncestorAt(old(currentHeaderHash), head)
      ensures head < old(currentHeader).number ==>
                headers == set h | h in old(headers) && h.HashOf? && h.header.number <= head
      ensures old(currentHeader).number <= head ==> headers == old(headers)
    {
      ghost var top := currentHeaderHash;
      var batch: set<Hash>, marks: set<nat> := {}, {};
      var origin := true;
      while head < currentHeader.number
        modifies this`currentHeader, this`currentHeaderHash, this`headerCache
        invariant Rewinding(top, batch, marks, origin)
        invariant !origin ==> head < top.header.number && head <= currentHeader.number
        decreases currentHeader.number
      {
        batch, marks := RewindOne(top, batch, marks, origin);
        origin := false;
      }
      ApplyRewind(top, batch, marks, origin);
    }

    method GetHeaderByHash(hash: Hash) returns (header: Option<Header>)
      requires Valid()
      modifies this`numberCache, this`headerCache
      ensures Valid()
      ensures header.Some? <==> hash in headers
      ensures header.Some? ==> hash == HashOf(header.value)
    {
      assert hash in headers ==> Linked(headers, genesis, hash);
      if hash !in numberCache {
        if hash !in headers {
          return None;
        }
        var cache: set<Hash> :| cache <= numberCache + {hash};
        numberCache := cache;
      }
      header := GetHeader(hash, hash.header.number);
    }

    method GetHeaderByNumber(number: nat) returns (header: Option<Header>)
      requires Valid()
      modifies this`headerCache
      ensures Valid()
      ensures header.Some? <==> number <= currentHeader.number
      ensures header.Some? ==> IsCanonical(markers, HashOf(header.value)) && header.value.number == number
    {
      if number <= currentHeader.number {
        AncestorInTree(headers, genesis, currentHeaderHash, number);
      }
      var hash := Marker(markers, number);
      if hash == Zero {
        return None;
      }
      header := GetHeader(hash, number);
    }

    /** Over every run the markers are the path of the head; without rewinds the head is also the heaviest. */
    method Run(steps: seq<ChainStep>)
      requires Valid() && forall i :: 0 <= i < |steps| ==> steps[i].Numbered()
      modifies this
      ensures Valid()
      ensures old(Heaviest()) && (forall i :: 0 <= i < |steps| ==> steps[i].Write?) ==> Heaviest()
    {
      for i := 0 to |steps|
        invariant Valid()
        invariant old(Heaviest()) && (forall j :: 0 <= j < i ==> steps[j].Write?) ==> Heaviest()
      {
        match steps[i]
        case Write(header, coin) =>
          var status, err := WriteHeader(header, coin);
        case Rewind(head) =>
          SetHead(head);
      }
    }
  }

  /** No hash at all has an ancestor: with nothing but a genesis header stored, that is the second ancestor at 2. */
  method UnknownHashHasAncestor(genesis: Header) returns (chain: HeaderChain, found: Hash)
    requires genesis.number == 0
    ensures chain.Valid() && chain.currentHeader == genesis
    ensures found == genesis.Hash() && found == Phantom(chain.markers, chain.currentHeader.number, 2, 2)
  {
    chain := new HeaderChain(genesis);
    var at, left;
    found, at, left := chain.GetAncestor(Zero, 2, 2, 0);
    assert AncestorAt(genesis.Hash(), 0) == genesis.Hash();
  }
}
