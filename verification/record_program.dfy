/**
  The on-chain record program: one `RecordAccount` holds a counter and a
  vector of `Record`s; `initialize`, `create_record` and `update_record`
  are its three instructions.  The clock sysvar and the signer's key are
  parameters.  A failing instruction aborts its transaction, so the caller
  keeps the account it had: an `Err` carries no account.
*/
module RecordProgram {
  import opened Wrappers

  /** A Solana public key; the program only compares keys for equality. */
  type Pubkey = seq<bv8>

  datatype Record = Record(author: Pubkey, data: string, timestamp: int)

  datatype RecordAccount = RecordAccount(count: nat, records: seq<Record>)

  /** The program's declared error codes. */
  datatype CustomError = InvalidRecordIndex | UnauthorizedAccess

  /** Why an instruction fails: a declared error code, or the runtime panic
      that indexing the record vector out of bounds would raise. */
  datatype ProgramError = Custom(code: CustomError) | IndexOutOfBounds

  /** The account invariant: the counter tracks the number of records. */
  predicate Valid(a: RecordAccount) {
    a.count == |a.records|
  }

  /** The account Anchor's `init` hands to `initialize`: deserialised from
      zero-filled data, so the counter is 0 and the vector has length 0. */
  const ZeroFilled: RecordAccount := RecordAccount(0, [])

  /** `initialize` resets the counter and touches nothing else. */
  function Initialize(a: RecordAccount): (r: RecordAccount)
    ensures r.count == 0
    ensures r.records == a.records
    ensures Valid(r) <==> a.records == []
  {
    a.(count := 0)
  }

  /** `create_record` appends one record authored by the signer, stamped
      with the clock, and bumps the counter. */
  function CreateRecord(a: RecordAccount, signer: Pubkey, data: string, clock: int): (r: RecordAccount)
    ensures |r.records| == |a.records| + 1
    ensures r.records[..|a.records|] == a.records
    ensures r.records[|a.records|].author == signer
    ensures r.records[|a.records|].data == data
    ensures r.records[|a.records|].timestamp == clock
    ensures r.count == a.count + 1
  {
    a.(records := a.records + [Record(signer, data, clock)], count := a.count + 1)
  }

  /** `update_record` first checks the index against the counter, then the
      record's author against the signer, and only then rewrites the
      record's data and timestamp. */
  function UpdateRecord(a: RecordAccount, signer: Pubkey, index: nat, newData: string, clock: int)
    : (r: Result<RecordAccount, ProgramError>)
    ensures index >= a.count ==> r == Err(Custom(InvalidRecordIndex))
    ensures index < a.count && index >= |a.records| ==> r == Err(IndexOutOfBounds)
    ensures (index < a.count && index < |a.records| && a.records[index].author != signer)
            ==> r == Err(Custom(UnauthorizedAccess))
    ensures r.Ok? <==> index < a.count && index < |a.records| && a.records[index].author == signer
    ensures r.Ok? ==> r.value.count == a.count && |r.value.records| == |a.records|
    ensures r.Ok? ==> r.value.records[index].author == a.records[index].author
    ensures r.Ok? ==> r.value.records[index].data == newData
    ensures r.Ok? ==> r.value.records[index].timestamp == clock
    ensures r.Ok? ==> forall j :: 0 <= j < |a.records| && j != index ==> r.value.records[j] == a.records[j]
  {
    if index >= a.count then Err(Custom(InvalidRecordIndex))
    else if index >= |a.records| then Err(IndexOutOfBounds)
    else if a.records[index].author != signer then Err(Custom(UnauthorizedAccess))
    else
      var rec := a.records[index];
      Ok(a.(records := a.records[index := rec.(data := newData, timestamp := clock)]))
  }

  /** `initialize` on a freshly allocated account establishes the invariant. */
  lemma InitializeEstablishesValid()
    ensures Valid(Initialize(ZeroFilled))
    ensures Initialize(ZeroFilled).records == []
  {
  }

  /** `create_record` preserves the invariant. */
  lemma CreateRecordPreservesValid(a: RecordAccount, signer: Pubkey, data: string, clock: int)
    requires Valid(a)
    ensures Valid(CreateRecord(a, signer, data, clock))
  {
  }

  /** `update_record` preserves the invariant, and on a valid account the
      out-of-bounds panic cannot happen: the only failures are the two
      declared error codes. */
  lemma UpdateRecordPreservesValid(a: RecordAccount, signer: Pubkey, index: nat, newData: string, clock: int)
    requires Valid(a)
    ensures UpdateRecord(a, signer, index, newData, clock).Ok? ==> Valid(UpdateRecord(a, signer, index, newData, clock).value)
    ensures UpdateRecord(a, signer, index, newData, clock) != Err(IndexOutOfBounds)
  {
  }

  /** The instructions that act on an existing account. */
  datatype Instruction =
    | Create(author: Pubkey, data: string, clock: int)
    | Update(signer: Pubkey, index: nat, newData: string, clock: int)

  /** The account after one instruction's transaction: a failed instruction
      is rolled back and leaves the account as it was. */
  function Step(a: RecordAccount, ix: Instruction): RecordAccount {
    match ix
    case Create(author, data, clock) => CreateRecord(a, author, data, clock)
    case Update(signer, index, newData, clock) =>
      match UpdateRecord(a, signer, index, newData, clock)
      case Ok(a') => a'
      case Err(_) => a
  }

  /** The account after a sequence of instructions, applied in order. */
  function Run(a: RecordAccount, ixs: seq<Instruction>): RecordAccount
    decreases |ixs|
  {
    if ixs == [] then a else Run(Step(a, ixs[0]), ixs[1..])
  }

  /** The invariant holds after any sequence of instructions. */
  lemma {:induction false} RunPreservesValid(a: RecordAccount, ixs: seq<Instruction>)
    requires Valid(a)
    ensures Valid(Run(a, ixs))
    decreases |ixs|
  {
    if ixs != [] {
      match ixs[0] {
        case Create(author, data, clock) =>
          CreateRecordPreservesValid(a, author, data, clock);
        case Update(signer, index, newData, clock) =>
          UpdateRecordPreservesValid(a, signer, index, newData, clock);
      }
      RunPreservesValid(Step(a, ixs[0]), ixs[1..]);
    }
  }

  /** Records are never removed and their authors never change. */
  lemma {:induction false} RunKeepsAuthors(a: RecordAccount, ixs: seq<Instruction>)
    ensures |Run(a, ixs).records| >= |a.records|
    ensures forall i :: 0 <= i < |a.records| ==> Run(a, ixs).records[i].author == a.records[i].author
    decreases |ixs|
  {
    if ixs != [] {
      RunKeepsAuthors(Step(a, ixs[0]), ixs[1..]);
    }
  }

  /** A record that existed before is left exactly as it was by any
      sequence of instructions none of which is signed by its author. */
  lemma {:induction false} OnlyAuthorEdits(a: RecordAccount, ixs: seq<Instruction>, i: nat)
    requires i < |a.records|
    requires forall k :: 0 <= k < |ixs| && ixs[k].Update? ==> ixs[k].signer != a.records[i].author
    ensures i < |Run(a, ixs).records|
    ensures Run(a, ixs).records[i] == a.records[i]
    decreases |ixs|
  {
    if ixs != [] {
      var a' := Step(a, ixs[0]);
      assert a'.records[i] == a.records[i];
      forall k | 0 <= k < |ixs[1..]| && ixs[1..][k].Update?
        ensures ixs[1..][k].signer != a'.records[i].author
      {
        assert ixs[1..][k] == ixs[k + 1];
      }
      OnlyAuthorEdits(a', ixs[1..], i);
    }
  }
}
