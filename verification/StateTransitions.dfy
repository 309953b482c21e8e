/** Gas and ether of core/state_transition.go, core/gaspool.go and core/state_processor.go. The virtual machine is a
    function that returns no more gas than it is given. */
module StateTransitions {
  import opened Basics
  import opened Transactions
  import opened TxNoncers
  import Intrinsic = IntrinsicGas

  type Accounts = map<Address, Account>

  datatype Message = Message(from: Address, to: Option<Address>, gasPrice: nat, gas: uint64, value: nat, nonce: nat,
                             checkNonce: bool, data: seq<byte>)

  datatype Outcome = Outcome(accounts: Accounts, gasLeft: nat, refund: nat, failed: bool)

  type VM = (Accounts, Message, nat) -> Outcome

  datatype GasError =
    | Fine | NonceTooHigh | NonceTooLow | InsufficientFunds | GasLimitReached
    | GasOverflow | TooLittleGas | InsufficientFundsForTransfer

  ghost predicate Frugal(vm: VM) {
    forall accounts, msg, gas :: vm(accounts, msg, gas).gasLeft <= gas
  }

  function Get(accounts: Accounts, a: Address): Account {
    if a in accounts then accounts[a] else Account(0, 0)
  }

  ghost function TotalOf(accounts: Accounts, s: set<Address>): nat {
    if s == {} then 0 else var a :| a in s; Get(accounts, a).balance + TotalOf(accounts, s - {a})
  }

  /** All ether there is. */
  ghost function Total(accounts: Accounts): nat {
    TotalOf(accounts, set a | a in accounts)
  }

  /** The virtual machine creates and burns no ether. */
  ghost predicate Conservative(vm: VM) {
    forall accounts, msg, gas :: Total(vm(accounts, msg, gas).accounts) == Total(accounts)
  }

  function Pay(accounts: Accounts, a: Address, amount: nat): Accounts {
    accounts[a := Get(accounts, a).(balance := Get(accounts, a).balance + amount)]
  }

  function Charge(accounts: Accounts, a: Address, amount: nat): Accounts
    requires amount <= Get(accounts, a).balance
  {
    accounts[a := Get(accounts, a).(balance := Get(accounts, a).balance - amount)]
  }

  function BumpNonce(accounts: Accounts, a: Address): Accounts {
    accounts[a := Get(accounts, a).(nonce := Get(accounts, a).nonce + 1)]
  }

  function Fee(gas: nat, price: nat): nat {
    gas * price
  }

  lemma FeeSplits(a: nat, b: nat, price: nat)
    ensures Fee(a + b, price) == Fee(a, price) + Fee(b, price)
  {
  }

  lemma {:induction false} TotalOfWithout(accounts: Accounts, s: set<Address>, a: Address)
    requires a in s
    ensures TotalOf(accounts, s) == Get(accounts, a).balance + TotalOf(accounts, s - {a})
  {
    var first :| first in s && TotalOf(accounts, s) == Get(accounts, first).balance + TotalOf(accounts, s - {first});
    if first != a {
      TotalOfWithout(accounts, s - {first}, a);
      TotalOfWithout(accounts, s - {a}, first);
      assert s - {first} - {a} == s - {a} - {first};
    }
  }

  lemma {:induction false} SameTotal(accounts: Accounts, accounts': Accounts, s: set<Address>)
    requires forall a :: a in s ==> Get(accounts, a).balance == Get(accounts', a).balance
    ensures TotalOf(accounts, s) == TotalOf(accounts', s)
  {
    if s != {} {
      var a :| a in s;
      TotalOfWithout(accounts, s, a);
      TotalOfWithout(accounts', s, a);
      SameTotal(accounts, accounts', s - {a});
    }
  }

  /** Replacing one account changes the total by the change of its balance. */
  lemma TotalChanges(accounts: Accounts, a: Address, account: Account)
    ensures Total(accounts[a := account]) == Total(accounts) - Get(accounts, a).balance + account.balance
  {
    var accounts' := accounts[a := account];
    var s, s' := set b | b in accounts, set b | b in accounts';
    assert s' == s + {a};
    TotalOfWithout(accounts', s', a);
    assert s' - {a} == s - {a};
    SameTotal(accounts, accounts', s - {a});
    if a in s {
      TotalOfWithout(accounts, s, a);
    } else {
      assert s - {a} == s;
    }
  }

  lemma PayTotal(accounts: Accounts, a: Address, amount: nat)
    ensures Total(Pay(accounts, a, amount)) == Total(accounts) + amount
  {
    TotalChanges(accounts, a, Get(accounts, a).(balance := Get(accounts, a).balance + amount));
  }

  class GasPool {
    var gas: uint64

    constructor (gas: uint64)
      ensures this.gas == gas
    {
      this.gas := gas;
    }

    /** Gives gas back. More than 64 bits hold is a programming error. */
    method AddGas(amount: uint64)
      requires gas + amount <= MAX_UINT64
      modifies this
      ensures gas == old(gas) + amount
    {
      gas := gas + amount;
    }

    method SubGas(amount: uint64) returns (ok: bool)
      modifies this
      ensures ok <==> amount <= old(gas)
      ensures gas == if ok then old(gas) - amount else old(gas)
    {
      if gas < amount {
        return false;
      }
      gas := gas - amount;
      return true;
    }
  }

  class StateDB {
    var accounts: Accounts

    constructor (accounts: Accounts)
      ensures this.accounts == accounts
    {
      this.accounts := accounts;
    }
  }

  /** The account balances just before the virtual machine runs. */
  function Prepared(accounts: Accounts, msg: Message): Accounts
    requires Fee(msg.gas, msg.gasPrice) <= Get(accounts, msg.from).balance
  {
    var paid := Charge(accounts, msg.from, Fee(msg.gas, msg.gasPrice));
    if msg.to == None then paid else BumpNonce(paid, msg.from)
  }

  lemma PreparedTotal(accounts: Accounts, msg: Message)
    requires Fee(msg.gas, msg.gasPrice) <= Get(accounts, msg.from).balance
    ensures Total(Prepared(accounts, msg)) == Total(accounts) - Fee(msg.gas, msg.gasPrice)
  {
    var paid := Charge(accounts, msg.from, Fee(msg.gas, msg.gasPrice));
    TotalChanges(accounts, msg.from, Get(paid, msg.from));
    TotalChanges(paid, msg.from, Get(paid, msg.from).(nonce := Get(paid, msg.from).nonce + 1));
  }

  /** The gas to pay for when `left` of `gas` is unused and `refund` is claimed, of which at most half is granted. */
  function Payable(gas: nat, left: nat, refund: nat): nat
    requires left <= gas
  {
    if refund < (gas - left) / 2 then gas - left - refund else gas - left - (gas - left) / 2
  }

  /** The first thing that is wrong with a message. */
  function Refusal(accounts: Accounts, pool: int, msg: Message, cost: nat): GasError {
    var sender := Get(accounts, msg.from);
    if msg.checkNonce && sender.nonce < msg.nonce then NonceTooHigh
    else if msg.checkNonce && msg.nonce < sender.nonce then NonceTooLow
    else if sender.balance < Fee(msg.gas, msg.gasPrice) then InsufficientFunds
    else if pool < msg.gas then GasLimitReached
    else if MAX_UINT64 < cost then GasOverflow
    else if msg.gas < cost then TooLittleGas
    else if sender.balance < Fee(msg.gas, msg.gasPrice) + msg.value && 0 < msg.value then InsufficientFundsForTransfer
    else Fine
  }

  /** A message is fine exactly if its nonce is the next one, where that is checked, the sender can pay for all its gas
      and the value besides, and the gas fits into the block and covers the intrinsic cost. */
  lemma FineMeans(accounts: Accounts, pool: int, msg: Message, cost: nat)
    ensures Refusal(accounts, pool, msg, cost) == Fine <==>
              && (msg.checkNonce ==> msg.nonce == Get(accounts, msg.from).nonce)
              && msg.gas * msg.gasPrice + msg.value <= Get(accounts, msg.from).balance
              && cost <= msg.gas <= pool
  {
  }

  /** What a block fixes for its transactions. */
  datatype Block = Block(coinbase: Address, homestead: bool, istanbul: bool) {
    function Cost(msg: Message): nat {
      Intrinsic.Cost(msg.data, msg.to == None, homestead, istanbul)
    }
  }

  /** What the virtual machine makes of a message whose sender has paid for its gas. */
  function Executed(vm: VM, block: Block, accounts: Accounts, msg: Message): Outcome
    requires Fee(msg.gas, msg.gasPrice) <= Get(accounts, msg.from).balance && block.Cost(msg) <= msg.gas
  {
    vm(Prepared(accounts, msg), msg, msg.gas - block.Cost(msg))
  }

  /** The message ran on `accounts`: the sender paid for the gas used, the miner got the fee. */
  ghost predicate Ran(vm: VM, block: Block, accounts: Accounts, msg: Message, used: nat, accounts': Accounts) {
    && Fee(msg.gas, msg.gasPrice) <= Get(accounts, msg.from).balance && block.Cost(msg) <= msg.gas
    && var out := Executed(vm, block, accounts, msg);
       && out.gasLeft <= msg.gas && used == Payable(msg.gas, out.gasLeft, out.refund) <= msg.gas
       && accounts' == Pay(Pay(out.accounts, msg.from, Fee(msg.gas - used, msg.gasPrice)), block.coinbase,
                           Fee(used, msg.gasPrice))
  }

  /** The change of total ether that the run of the virtual machine makes on its own. */
  ghost function Delta(vm: VM, block: Block, accounts: Accounts, msg: Message): int
    requires Fee(msg.gas, msg.gasPrice) <= Get(accounts, msg.from).balance && block.Cost(msg) <= msg.gas
  {
    Total(Executed(vm, block, accounts, msg).accounts) - Total(Prepared(accounts, msg))
  }

  /** Gas is paid for and nothing else: the ether in all accounts changes only as the virtual machine changes it. */
  lemma RanTotal(vm: VM, block: Block, accounts: Accounts, msg: Message, used: nat, accounts': Accounts)
    requires Ran(vm, block, accounts, msg, used, accounts')
    ensures Total(accounts') == Total(accounts) + Delta(vm, block, accounts, msg)
    ensures Conservative(vm) ==> Total(accounts') == Total(accounts)
  {
    var out := Executed(vm, block, accounts, msg);
    PreparedTotal(accounts, msg);
    PayTotal(out.accounts, msg.from, Fee(msg.gas - used, msg.gasPrice));
    PayTotal(Pay(out.accounts, msg.from, Fee(msg.gas - used, msg.gasPrice)), block.coinbase, Fee(used, msg.gasPrice));
    FeeSplits(msg.gas - used, used, msg.gasPrice);
  }

  /** A frugal machine leaves at least half of the intrinsic cost to pay. */
  lemma RanBounds(vm: VM, block: Block, accounts: Accounts, msg: Message, used: nat, accounts': Accounts)
    requires Ran(vm, block, accounts, msg, used, accounts') && Frugal(vm)
    ensures used <= msg.gas && block.Cost(msg) <= 2 * used
  {
  }

  /** What a message does to each account.  The machine runs on accounts from which the sender has paid for all gas, and
      in which a call, but not a creation, has raised the sender's nonce. Of the gas it uses at most half is refunded,
      up to what it claims.  The sender gets the price of the rest back and the miner the price of the gas used. */
  lemma RanAccounts(vm: VM, block: Block, accounts: Accounts, msg: Message, used: nat, accounts': Accounts)
    returns (seen: Accounts, out: Outcome)
    requires Ran(vm, block, accounts, msg, used, accounts')
    ensures msg.gas * msg.gasPrice <= Get(accounts, msg.from).balance && block.Cost(msg) <= msg.gas
    ensures out == vm(seen, msg, msg.gas - block.Cost(msg)) && used <= msg.gas
    ensures Get(seen, msg.from) == Account(Get(accounts, msg.from).nonce + if msg.to.Some? then 1 else 0,
                                           Get(accounts, msg.from).balance - msg.gas * msg.gasPrice)
    ensures forall a :: a != msg.from ==> Get(seen, a) == Get(accounts, a)
    ensures var burnt := msg.gas - out.gasLeft;
            burnt <= 2 * used && burnt <= used + out.refund && (used + out.refund == burnt || used == burnt - burnt / 2)
    ensures forall a :: Get(accounts', a) ==
                        Account(Get(out.accounts, a).nonce,
                                Get(out.accounts, a).balance
                                + (if a == msg.from then (msg.gas - used) * msg.gasPrice else 0)
                                + if a == block.coinbase then used * msg.gasPrice else 0)
  {
    seen, out := Prepared(accounts, msg), Executed(vm, block, accounts, msg);
  }

  /** The virtual machine leaves all accounts as they are. */
  ghost predicate Inert(vm: VM) {
    forall accounts, msg, gas :: vm(accounts, msg, gas).accounts == accounts
  }

  /** With such a machine the sender pays for the gas used, the miner gets it, a call raises the sender's nonce by one
      and a creation does not, and nothing else changes. */
  lemma InertRun(vm: VM, block: Block, accounts: Accounts, msg: Message, used: nat, accounts': Accounts)
    requires Ran(vm, block, accounts, msg, used, accounts') && Inert(vm)
    ensures Get(accounts', msg.from).nonce == Get(accounts, msg.from).nonce + if msg.to.Some? then 1 else 0
    ensures msg.from != block.coinbase ==>
              && Get(accounts', msg.from).balance == Get(accounts, msg.from).balance - used * msg.gasPrice
              && Get(accounts', block.coinbase) ==
                 Get(accounts, block.coinbase).(balance := Get(accounts, block.coinbase).balance + used * msg.gasPrice)
    ensures msg.from == block.coinbase ==> Get(accounts', msg.from).balance == Get(accounts, msg.from).balance
    ensures forall a :: a != msg.from && a != block.coinbase ==> Get(accounts', a) == Get(accounts, a)
  {
    var seen, out := RanAccounts(vm, block, accounts, msg, used, accounts');
    FeeSplits(msg.gas - used, used, msg.gasPrice);
  }

  /** The virtual machine lowers no nonce. */
  ghost predicate KeepsNonces(vm: VM) {
    forall accounts, msg, gas, a :: Get(accounts, a).nonce <= Get(vm(accounts, msg, gas).accounts, a).nonce
  }

  /** A creation raises the nonce of its sender. */
  ghost predicate CountsCreations(vm: VM) {
    forall accounts, msg: Message, gas :: msg.to == None ==>
      Get(accounts, msg.from).nonce < Get(vm(accounts, msg, gas).accounts, msg.from).nonce
  }

  /** A message lowers no nonce, and a call raises that of its sender. */
  lemma RanNonces(vm: VM, block: Block, accounts: Accounts, msg: Message, used: nat, accounts': Accounts)
    requires Ran(vm, block, accounts, msg, used, accounts') && KeepsNonces(vm)
    ensures forall a :: Get(accounts, a).nonce <= Get(accounts', a).nonce
    ensures msg.to.Some? || CountsCreations(vm) ==> Get(accounts, msg.from).nonce < Get(accounts', msg.from).nonce
  {
    var seen, out := RanAccounts(vm, block, accounts, msg, used, accounts');
    forall a ensures Get(accounts, a).nonce <= Get(accounts', a).nonce {
      assert Get(seen, a).nonce <= Get(out.accounts, a).nonce;
    }
  }

  class StateTransition {
    const gp: GasPool
    const state: StateDB
    const msg: Message
    const block: Block
    var gas: uint64
    var initialGas: uint64

    constructor (gp: GasPool, state: StateDB, msg: Message, block: Block)
      ensures this.gp == gp && this.state == state && this.msg == msg && this.block == block && gas == initialGas == 0
    {
      this.gp, this.state, this.msg, this.block, gas, initialGas := gp, state, msg, block, 0, 0;
    }

    function GasUsed(): int
      reads this
    {
      initialGas - gas
    }

    /** Reserves the gas of the message in the block and charges the sender for it. */
    method BuyGas() returns (err: GasError)
      requires gas == 0
      modifies this, gp, state
      ensures err == if Get(old(state.accounts), msg.from).balance < Fee(msg.gas, msg.gasPrice) then InsufficientFunds
                     else if old(gp.gas) < msg.gas then GasLimitReached else Fine
      ensures err != Fine ==> gp.gas == old(gp.gas) && state.accounts == old(state.accounts)
      ensures err == Fine ==>
                && gp.gas == old(gp.gas) - msg.gas && gas == initialGas == msg.gas
                && state.accounts == Charge(old(state.accounts), msg.from, Fee(msg.gas, msg.gasPrice))
    {
      var value := Fee(msg.gas, msg.gasPrice);
      if Get(state.accounts, msg.from).balance < value {
        return InsufficientFunds;
      }
      var ok := gp.SubGas(msg.gas);
      if !ok {
        return GasLimitReached;
      }
      gas := gas + msg.gas;
      initialGas := msg.gas;
      state.accounts := Charge(state.accounts, msg.from, value);
      return Fine;
    }

    method PreCheck() returns (err: GasError)
      requires gas == 0
      modifies this, gp, state
      ensures err == Refusal(old(state.accounts), old(gp.gas), msg.(value := 0), 0)
      ensures err != Fine ==> gp.gas == old(gp.gas) && state.accounts == old(state.accounts)
      ensures err == Fine ==>
                && gp.gas == old(gp.gas) - msg.gas && gas == initialGas == msg.gas
                && Fee(msg.gas, msg.gasPrice) <= Get(old(state.accounts), msg.from).balance
                && state.accounts == Charge(old(state.accounts), msg.from, Fee(msg.gas, msg.gasPrice))
    {
      if msg.checkNonce {
        var nonce := Get(state.accounts, msg.from).nonce;
        if nonce < msg.nonce {
          return NonceTooHigh;
        } else if nonce > msg.nonce {
          return NonceTooLow;
        }
      }
      err := BuyGas();
    }

    /** Returns the unused gas, and up to half of the used gas for cleared storage. */
    method RefundGas(refund: nat)
      requires gas <= initialGas && gp.gas + initialGas <= MAX_UINT64
      modifies this, gp, state
      ensures initialGas == old(initialGas) && gas <= initialGas
      ensures initialGas - gas == Payable(initialGas, old(gas), refund)
      ensures gp.gas == old(gp.gas) + gas
      ensures state.accounts == Pay(old(state.accounts), msg.from, Fee(gas, msg.gasPrice))
    {
      var back := GasUsed() / 2;
      if back > refund {
        back := refund;
      }
      gas := gas + back;
      state.accounts := Pay(state.accounts, msg.from, Fee(gas, msg.gasPrice));
      gp.AddGas(gas);
    }

    /** Refunds the sender and pays the miner. */
    method Settle(refund: nat) returns (used: nat)
      requires initialGas == msg.gas && gas <= initialGas && gp.gas + initialGas <= MAX_UINT64
      modifies this, gp, state
      ensures used == Payable(msg.gas, old(gas), refund) <= msg.gas && gp.gas + used == old(gp.gas) + msg.gas
      ensures state.accounts == Pay(Pay(old(state.accounts), msg.from, Fee(msg.gas - used, msg.gasPrice)), block.coinbase,
                                    Fee(used, msg.gasPrice))
    {
      RefundGas(refund);
      used := GasUsed();
      state.accounts := Pay(state.accounts, block.coinbase, Fee(used, msg.gasPrice));
    }

    method Execute(vm: VM, ghost accounts0: Accounts) returns (used: nat)
      requires initialGas == msg.gas && gas <= initialGas && gp.gas + initialGas <= MAX_UINT64 && Frugal(vm)
      requires Fee(msg.gas, msg.gasPrice) <= Get(accounts0, msg.from).balance && gas + block.Cost(msg) == msg.gas
      requires state.accounts == Charge(accounts0, msg.from, Fee(msg.gas, msg.gasPrice))
      modifies this, gp, state
      ensures gp.gas + used == old(gp.gas) + msg.gas && Ran(vm, block, accounts0, msg, used, state.accounts)
    {
      if msg.to.Some? {
        state.accounts := BumpNonce(state.accounts, msg.from);
      }
      var out := vm(state.accounts, msg, gas);
      state.accounts, gas := out.accounts, out.gasLeft;
      used := Settle(out.refund);
    }

    /** Runs the message, or refuses it. Some refusals come after the gas was bought. */
    method TransitionDb(vm: VM) returns (used: nat, err: GasError)
      requires gas == 0 && gp.gas <= MAX_UINT64 && Frugal(vm)
      modifies this, gp, state
      ensures err == Refusal(old(state.accounts), old(gp.gas), msg, block.Cost(msg))
      ensures err == Fine ==> gp.gas + used == old(gp.gas) && Ran(vm, block, old(state.accounts), msg, used, state.accounts)
      ensures err in {NonceTooHigh, NonceTooLow, InsufficientFunds, GasLimitReached} ==>
                gp.gas == old(gp.gas) && state.accounts == old(state.accounts)
      ensures err in {GasOverflow, TooLittleGas, InsufficientFundsForTransfer} ==>
                && gp.gas == old(gp.gas) - msg.gas && Fee(msg.gas, msg.gasPrice) <= Get(old(state.accounts), msg.from).balance
                && state.accounts == Charge(old(state.accounts), msg.from, Fee(msg.gas, msg.gasPrice))
    {
      used := 0;
      ghost var accounts0 := state.accounts;
      err := PreCheck();
      if err != Fine {
        return;
      }
      var intrinsic := Intrinsic.IntrinsicGas(msg.data, msg.to == None, block.homestead, block.istanbul);
      if intrinsic == None {
        err := GasOverflow;
        return;
      }
      if gas < intrinsic.value {
        err := TooLittleGas;
        return;
      }
      gas := gas - intrinsic.value;
      if msg.value > 0 && Get(state.accounts, msg.from).balance < msg.value {
        err := InsufficientFundsForTransfer;
        return;
      }
      used := Execute(vm, accounts0);
    }
  }

  datatype Receipt = Receipt(cumulativeGasUsed: nat, gasUsed: nat)

  /** The gas used by the first `n` receipts. */
  function GasSum(receipts: seq<Receipt>): nat {
    if receipts == [] then 0 else GasSum(receipts[..|receipts| - 1]) + receipts[|receipts| - 1].gasUsed
  }

  ghost predicate RanWithinInFull(vm: VM, block: Block, room: int, accounts: Accounts, msg: Message, used: nat,
                                  accounts': Accounts) {
    Refusal(accounts, room, msg, block.Cost(msg)) == Fine && Ran(vm, block, accounts, msg, used, accounts')
  }

  /** The message was not refused, with `room` gas left in the block, and ran; guarded by `Open`. */
  ghost predicate RanWithin(vm: VM, block: Block, room: int, accounts: Accounts, msg: Message, used: nat,
                            accounts': Accounts) {
    forall k {:trigger Open(k)} :: Open(k) ==> RanWithinInFull(vm, block, room, accounts, msg, used, accounts')
  }

  /** The first messages ran one after the other, each on the accounts the one before left, and each with room
      for its gas in the block. */
  ghost predicate RanInOrder(vm: VM, block: Block, gasLimit: nat, msgs: seq<Message>, states: seq<Accounts>,
                             receipts: seq<Receipt>)
    decreases |receipts|
  {
    && |states| == |receipts| + 1 && |receipts| <= |msgs|
    && (receipts == [] ||
        var n := |receipts| - 1;
        && RanInOrder(vm, block, gasLimit, msgs, states[..n + 1], receipts[..n])
        && receipts[n].cumulativeGasUsed == GasSum(receipts)
        && RanWithin(vm, block, gasLimit - GasSum(receipts[..n]), states[n], msgs[n], receipts[n].gasUsed, states[n + 1]))
  }

  lemma RanNext(vm: VM, block: Block, gasLimit: nat, msgs: seq<Message>, states: seq<Accounts>, receipts: seq<Receipt>,
                r: Receipt, accounts: Accounts)
    requires RanInOrder(vm, block, gasLimit, msgs, states, receipts) && |receipts| < |msgs|
    requires var n := |receipts|;
             RanWithin(vm, block, gasLimit - GasSum(receipts), states[n], msgs[n], r.gasUsed, accounts)
    requires r.cumulativeGasUsed == GasSum(receipts) + r.gasUsed
    ensures RanInOrder(vm, block, gasLimit, msgs, states + [accounts], receipts + [r])
    ensures GasSum(receipts + [r]) == r.cumulativeGasUsed
  {
    var n := |receipts|;
    assert (receipts + [r])[..n] == receipts && (states + [accounts])[..n + 1] == states;
  }

  /** Every message ran, and its receipt counts the gas of the block up to and with it. */
  lemma {:induction false} RanThen(vm: VM, block: Block, gasLimit: nat, msgs: seq<Message>, states: seq<Accounts>,
                                   receipts: seq<Receipt>, i: nat)
    requires RanInOrder(vm, block, gasLimit, msgs, states, receipts) && i < |receipts|
    ensures Refusal(states[i], gasLimit - GasSum(receipts[..i]), msgs[i], block.Cost(msgs[i])) == Fine
    ensures Ran(vm, block, states[i], msgs[i], receipts[i].gasUsed, states[i + 1])
    ensures receipts[i].cumulativeGasUsed == GasSum(receipts[..i + 1])
    decreases |receipts|
  {
    var n := |receipts| - 1;
    if i == n {
      assert Open(0);
      assert receipts[..n + 1] == receipts;
    } else {
      RanThen(vm, block, gasLimit, msgs, states[..n + 1], receipts[..n], i);
      assert receipts[..n][..i] == receipts[..i] && receipts[..n][..i + 1] == receipts[..i + 1];
    }
  }

  /** What the runs of the virtual machine add to the ether of all accounts. */
  ghost function DeltaSum(vm: VM, block: Block, gasLimit: nat, msgs: seq<Message>, states: seq<Accounts>,
                          receipts: seq<Receipt>): int
    requires RanInOrder(vm, block, gasLimit, msgs, states, receipts)
    decreases |receipts|
  {
    if receipts == [] then 0
    else
      var n := |receipts| - 1;
      RanThen(vm, block, gasLimit, msgs, states, receipts, n);
      DeltaSum(vm, block, gasLimit, msgs, states[..n + 1], receipts[..n]) + Delta(vm, block, states[n], msgs[n])
  }

  /** Ether is conserved over a block, but for what the virtual machine itself creates or burns. */
  lemma {:induction false} BlockTotal(vm: VM, block: Block, gasLimit: nat, msgs: seq<Message>, states: seq<Accounts>,
                                      receipts: seq<Receipt>)
    requires RanInOrder(vm, block, gasLimit, msgs, states, receipts)
    ensures Total(states[|receipts|]) == Total(states[0]) + DeltaSum(vm, block, gasLimit, msgs, states, receipts)
    ensures Conservative(vm) ==> Total(states[|receipts|]) == Total(states[0])
    decreases |receipts|
  {
    if receipts == [] {
    } else {
      var n := |receipts| - 1;
      RanThen(vm, block, gasLimit, msgs, states, receipts, n);
      BlockTotal(vm, block, gasLimit, msgs, states[..n + 1], receipts[..n]);
      RanTotal(vm, block, states[n], msgs[n], receipts[n].gasUsed, states[n + 1]);
    }
  }

  /** A transaction uses no more gas than it brings, and at least half of what it costs to begin with. */
  lemma BlockBounds(vm: VM, block: Block, gasLimit: nat, msgs: seq<Message>, states: seq<Accounts>, receipts: seq<Receipt>,
                    i: nat)
    requires RanInOrder(vm, block, gasLimit, msgs, states, receipts) && Frugal(vm) && i < |receipts|
    ensures receipts[i].gasUsed <= msgs[i].gas && block.Cost(msgs[i]) <= 2 * receipts[i].gasUsed
  {
    RanThen(vm, block, gasLimit, msgs, states, receipts, i);
    RanBounds(vm, block, states[i], msgs[i], receipts[i].gasUsed, states[i + 1]);
  }

  /** Over a block, no nonce falls. */
  lemma {:induction false} BlockNonces(vm: VM, block: Block, gasLimit: nat, msgs: seq<Message>, states: seq<Accounts>,
                                       receipts: seq<Receipt>, i: nat, j: nat, a: Address)
    requires RanInOrder(vm, block, gasLimit, msgs, states, receipts) && KeepsNonces(vm) && i <= j <= |receipts|
    ensures Get(states[i], a).nonce <= Get(states[j], a).nonce
    decreases j
  {
    if i < j {
      BlockNonces(vm, block, gasLimit, msgs, states, receipts, i, j - 1, a);
      RanThen(vm, block, gasLimit, msgs, states, receipts, j - 1);
      RanNonces(vm, block, states[j - 1], msgs[j - 1], receipts[j - 1].gasUsed, states[j]);
    }
  }

  /** No message of a block is run twice: where nonces are checked and the machine lowers none, a message that follows a
      call of the same sender has a higher nonce, and so has one that follows a creation, if creations are counted. */
  lemma NoReplay(vm: VM, block: Block, gasLimit: nat, msgs: seq<Message>, states: seq<Accounts>, receipts: seq<Receipt>,
                 i: nat, j: nat)
    requires RanInOrder(vm, block, gasLimit, msgs, states, receipts) && KeepsNonces(vm) && i < j < |receipts|
    requires msgs[i].from == msgs[j].from && msgs[i].checkNonce && msgs[j].checkNonce
    requires msgs[i].to.Some? || CountsCreations(vm)
    ensures msgs[i].nonce < msgs[j].nonce
  {
    RanThen(vm, block, gasLimit, msgs, states, receipts, i);
    RanThen(vm, block, gasLimit, msgs, states, receipts, j);
    RanNonces(vm, block, states[i], msgs[i], receipts[i].gasUsed, states[i + 1]);
    BlockNonces(vm, block, gasLimit, msgs, states, receipts, i + 1, j, msgs[i].from);
  }

  /** Runs one transaction of a block that has used `usedGas` so far. */
  method ApplyTransaction(msg: Message, gp: GasPool, state: StateDB, block: Block, usedGas: nat, vm: VM)
    returns (receipt: Receipt, err: GasError)
    requires Frugal(vm)
    modifies gp, state
    ensures err == Refusal(old(state.accounts), old(gp.gas), msg, block.Cost(msg))
    ensures err == Fine ==>
              && gp.gas + receipt.gasUsed == old(gp.gas) && receipt.cumulativeGasUsed == usedGas + receipt.gasUsed
              && RanWithin(vm, block, old(gp.gas), old(state.accounts), msg, receipt.gasUsed, state.accounts)
  {
    var st := new StateTransition(gp, state, msg, block);
    var used;
    used, err := st.TransitionDb(vm);
    receipt := Receipt(usedGas + used, used);
  }

  /** Processes the transactions of a block, up to the first one that is refused. */
  method Process(msgs: seq<Message>, state: StateDB, gasLimit: uint64, block: Block, vm: VM)
    returns (receipts: seq<Receipt>, usedGas: nat, err: GasError, ghost done: seq<Receipt>, ghost states: seq<Accounts>)
    requires Frugal(vm)
    modifies state
    ensures RanInOrder(vm, block, gasLimit, msgs, states, done) && states[0] == old(state.accounts)
    ensures err == Fine ==>
              |done| == |msgs| && state.accounts == states[|msgs|] && receipts == done && usedGas == GasSum(done)
    ensures err != Fine ==>
              && |done| < |msgs| && receipts == [] && usedGas == 0
              && err == Refusal(states[|done|], gasLimit - GasSum(done), msgs[|done|], block.Cost(msgs[|done|]))
    ensures err == Fine && Conservative(vm) ==> Total(state.accounts) == old(Total(state.accounts))
  {
    receipts, usedGas, err, states := [], 0, Fine, [state.accounts];
    var gp := new GasPool(gasLimit);
    for i := 0 to |msgs|
      invariant |receipts| == i && RanInOrder(vm, block, gasLimit, msgs, states, receipts)
      invariant states[0] == old(state.accounts) && states[i] == state.accounts
      invariant usedGas == GasSum(receipts) && gp.gas + usedGas == gasLimit && err == Fine
    {
      var receipt;
      receipt, err := ApplyTransaction(msgs[i], gp, state, block, usedGas, vm);
      if err != Fine {
        done := receipts;
        return [], 0, err, done, states;
      }
      RanNext(vm, block, gasLimit, msgs, states, receipts, receipt, state.accounts);
      usedGas := receipt.cumulativeGasUsed;
      receipts, states := receipts + [receipt], states + [state.accounts];
    }
    done := receipts;
    BlockTotal(vm, block, gasLimit, msgs, states, done);
  }
}
