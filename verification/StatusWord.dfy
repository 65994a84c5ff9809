/** The eight status bits of a session and the stage machine they encode. */
module StatusWord {

  datatype WorkStatus =
    | Initial | RequestRead | Parsed | DataFetched | ReadyToSend
    | SendFailed | Sent | Processing | Rejected | InitialSsl

  // The enumerator's value. The last two do not fit in the `char` they are or-ed into.
  function Code(w: WorkStatus): nat {
    match w
    case Initial => 1
    case RequestRead => 2
    case Parsed => 4
    case DataFetched => 8
    case ReadyToSend => 16
    case SendFailed => 32
    case Sent => 64
    case Processing => 128
    case Rejected => 256
    case InitialSsl => 512
  }

  // What survives of the enumerator in an eight-bit word.
  function Mask(w: WorkStatus): (m: bv8)
    ensures m as nat == Code(w) % 256
  {
    match w
    case Initial => 0x01
    case RequestRead => 0x02
    case Parsed => 0x04
    case DataFetched => 0x08
    case ReadyToSend => 0x10
    case SendFailed => 0x20
    case Sent => 0x40
    case Processing => 0x80
    case Rejected => 0
    case InitialSsl => 0
  }

  predicate Has(b: bv8, w: WorkStatus) { b & Mask(w) != 0 }

  predicate Held(b: bv8) { Has(b, Processing) }

  // The word that push_request leaves in the row it finds.
  function PushWord(b: bv8, w: WorkStatus): bv8 {
    var merged := (b & !Mask(Processing)) | Mask(w);
    match w
    case InitialSsl => merged | Mask(Initial)
    case SendFailed => merged & !Mask(ReadyToSend)
    case Sent => merged & !(Mask(RequestRead) | Mask(Parsed) | Mask(DataFetched) | Mask(ReadyToSend))
    case _ => merged
  }

  // The word that both pops leave in the row they hand out.
  function PopWord(b: bv8): bv8 { b | Mask(Processing) }

  // The test of pop_request_by_fd: the row is handed out unless it is in the pipeline.
  predicate PoppableByFd(b: bv8) {
    !(!Has(b, SendFailed)
      && (Has(b, RequestRead) || Has(b, Parsed) || Has(b, DataFetched) || Has(b, Processing) || Has(b, ReadyToSend)))
  }

  // ----- The abstract machine -----

  // The four worker pools, in pipeline order.
  datatype Stage = Parse | Load | Build | Send

  datatype Phase = Idle | Queued(stage: Stage) | Parked

  // The status a pool asks pop_request for.
  function Requested(s: Stage): WorkStatus {
    match s
    case Parse => RequestRead
    case Load => Parsed
    case Build => DataFetched
    case Send => ReadyToSend
  }

  // The pool whose condition variable push_request broadcasts, as a set of at most one.
  function Wakes(w: WorkStatus): set<Stage> {
    match w
    case RequestRead => {Parse}
    case Parsed => {Load}
    case DataFetched => {Build}
    case ReadyToSend => {Send}
    case _ => {}
  }

  // A push wakes the pool that asks for just that status, and no other.
  lemma WakesWhoAsks(w: WorkStatus, s: Stage)
    ensures s in Wakes(w) <==> Requested(s) == w
  {
    match w
    case RequestRead =>
    case Parsed =>
    case DataFetched =>
    case ReadyToSend =>
    case _ =>
  }

  // Stage bits form a downward-closed chain; a parked session has lost exactly the top one.
  predicate WellFormed(b: bv8) {
    && (Has(b, ReadyToSend) ==> Has(b, DataFetched))
    && (Has(b, DataFetched) ==> Has(b, Parsed))
    && (Has(b, Parsed) ==> Has(b, RequestRead))
    && (Has(b, SendFailed) ==> Has(b, DataFetched) && !Has(b, ReadyToSend))
  }

  function PhaseOf(b: bv8): Phase {
    if Has(b, SendFailed) then Parked
    else if Has(b, ReadyToSend) then Queued(Send)
    else if Has(b, DataFetched) then Queued(Build)
    else if Has(b, Parsed) then Queued(Load)
    else if Has(b, RequestRead) then Queued(Parse)
    else Idle
  }

  predicate Eligible(b: bv8, s: Stage) { !Held(b) && PhaseOf(b) == Queued(s) }

  // The pushes a holder may make: the listener from Idle or Parked, a worker from its stage.
  predicate Legal(p: Phase, w: WorkStatus) {
    match p
    case Idle => w in {Initial, RequestRead, Rejected}
    case Parked => w in {Initial, RequestRead, Rejected}
    case Queued(Parse) => w == Parsed
    case Queued(Load) => w == DataFetched
    case Queued(Build) => w == ReadyToSend
    case Queued(Send) => w in {ReadyToSend, SendFailed, Sent, Rejected}
  }

  function NextPhase(p: Phase, w: WorkStatus): Phase {
    match w
    case RequestRead => if p.Parked? then Parked else Queued(Parse)
    case Parsed => Queued(Load)
    case DataFetched => Queued(Build)
    case ReadyToSend => Queued(Send)
    case SendFailed => Parked
    case Sent => Idle
    case _ => p
  }

  // A legal push releases the word and moves the abstract machine.
  lemma PushRefines(b: bv8, w: WorkStatus)
    requires WellFormed(b) && Held(b) && Legal(PhaseOf(b), w) && w != Rejected
    ensures WellFormed(PushWord(b, w)) && !Held(PushWord(b, w))
    ensures PhaseOf(PushWord(b, w)) == NextPhase(PhaseOf(b), w)
  {
  }

  // A pop takes the word and leaves the abstract machine alone.
  lemma PopRefines(b: bv8)
    requires WellFormed(b)
    ensures WellFormed(PopWord(b)) && Held(PopWord(b)) && PhaseOf(PopWord(b)) == PhaseOf(b)
  {
  }

  // The listener may take a session exactly when it is out of the pipeline.
  lemma PoppableIsIdleOrParked(b: bv8)
    requires WellFormed(b)
    ensures PoppableByFd(b) <==> PhaseOf(b).Parked? || (PhaseOf(b).Idle? && !Held(b))
  {
  }

  // ----- The bit loop of peek_next -----

  // `*status_array[i]` as the compiler sees it in `*status_array[i] < status`: a plain `char`
  // may be signed, and the enumeration may be an unsigned type.
  function Promoted(b: bv8, charIsSigned: bool, enumIsUnsigned: bool): int {
    var v := b as int;
    if charIsSigned && v >= 128 then (if enumIsUnsigned then v - 256 + 0x1_0000_0000 else v - 256) else v
  }

  // The enumerator `1 << bit`.
  function StatusAt(bit: nat): WorkStatus
    requires bit <= 4
  {
    match bit case 0 => Initial case 1 => RequestRead case 2 => Parsed case 3 => DataFetched case 4 => ReadyToSend
  }

  // A word below the requested code has not got the requested bit.
  lemma SmallWordIsNotEligible(b: bv8, s: Stage, charIsSigned: bool, enumIsUnsigned: bool)
    requires Promoted(b, charIsSigned, enumIsUnsigned) < Code(Requested(s))
    ensures !Eligible(b, s)
  {
    if !Held(b) {
      assert b < 0x80;
      assert b as int < 0x80;
      assert b as int < Code(Requested(s));
      match s
      case Parse => assert b < 0x02;
      case Load => assert b < 0x04;
      case Build => assert b < 0x08;
      case Send => assert b < 0x10;
    }
  }

  // The tests that peek_next makes on one row; they agree with the abstract machine
  // whatever the signedness of `char` and of the enumeration.
  method RowMatches(b: bv8, s: Stage, charIsSigned: bool, enumIsUnsigned: bool) returns (found: bool)
    ensures found <==> Eligible(b, s)
  {
    var status := Requested(s);
    found := false;
    if Promoted(b, charIsSigned, enumIsUnsigned) < Code(status) {
      SmallWordIsNotEligible(b, s, charIsSigned, enumIsUnsigned);
      return;
    }
    if Has(b, Processing) || Has(b, SendFailed) {
      return;
    }
    var bit := 4;
    while bit >= 0
      invariant -1 <= bit <= 4
      invariant bit < 4 && Has(b, ReadyToSend) ==> 16 < Code(status)
      invariant bit < 3 && Has(b, DataFetched) ==> 8 < Code(status)
      invariant bit < 2 && Has(b, Parsed) ==> 4 < Code(status)
      invariant bit < 1 && Has(b, RequestRead) ==> 2 < Code(status)
    {
      var probe := StatusAt(bit);
      if Code(probe) > Code(status) && Has(b, probe) {
        break;
      } else if Code(probe) == Code(status) && Has(b, status) {
        found := true;
        break;
      }
      bit := bit - 1;
    }
  }
}
