/** The packed 64-bit state word of qsbr.hpp: bits 0-29 count the threads in the previous epoch, bits
    32-61 all threads, bits 62-63 the epoch. Words are numbers below 2^64; the fields never overlap, so
    the code's bitwise or of two fields is their sum. */
module QsbrWord {
  import opened QsbrProtocol
  import opened QsbrInvariant

  const COUNT_FIELD := 0x4000_0000
  const ONE_THREAD := 0x1_0000_0000
  const ONE_EPOCH := 0x4000_0000_0000_0000
  const WORD_SIZE := 0x1_0000_0000_0000_0000

  function GetEpoch(w: nat): nat {
    w / ONE_EPOCH
  }

  function GetThreadCount(w: nat): nat {
    w / ONE_THREAD % COUNT_FIELD
  }

  function GetInPrevious(w: nat): nat {
    w % COUNT_FIELD
  }

  function Unpack(w: nat): Word {
    Word(GetEpoch(w), GetThreadCount(w), GetInPrevious(w))
  }

  function IncThreadCount(w: nat): nat {
    (w + ONE_THREAD) % WORD_SIZE
  }

  function DecThreadCount(w: nat): nat {
    (w + WORD_SIZE - ONE_THREAD) % WORD_SIZE
  }

  function IncBoth(w: nat): nat {
    (w + ONE_THREAD + 1) % WORD_SIZE
  }

  function DecBoth(w: nat): nat {
    (w + WORD_SIZE - ONE_THREAD - 1) % WORD_SIZE
  }

  function DecInPrevious(w: nat): nat {
    (w + WORD_SIZE - 1) % WORD_SIZE
  }

  function MakeFromEpoch(e: nat): nat {
    e * ONE_EPOCH
  }

  function IncEpochResetPrevious(w: nat): nat {
    MakeFromEpoch((GetEpoch(w) + 1) % 4) + GetThreadCount(w) * ONE_THREAD + GetThreadCount(w)
  }

  function IncEpochDecThreadCountResetPrevious(w: nat): int {
    MakeFromEpoch((GetEpoch(w) + 1) % 4) + (GetThreadCount(w) - 1) * ONE_THREAD + (GetThreadCount(w) - 1)
  }

  predicate Fits(w: Word) {
    w.epoch < 4 && w.threads < COUNT_FIELD && w.inPrevious < COUNT_FIELD
  }

  function Pack(w: Word): nat {
    w.epoch * ONE_EPOCH + w.threads * ONE_THREAD + w.inPrevious
  }

  lemma AtLeastOnce(k: nat, d: nat)
    requires k > 0
    ensures k * d == (k - 1) * d + d >= d
  {
  }

  lemma UniqueQuotient(q: nat, r: nat, q': nat, r': nat, d: nat)
    requires q * d + r == q' * d + r' && r < d && r' < d
    ensures q == q' && r == r'
  {
    if q == 0 || q' == 0 {
      if q > 0 {
        AtLeastOnce(q, d);
      }
      if q' > 0 {
        AtLeastOnce(q', d);
      }
    } else {
      AtLeastOnce(q, d);
      AtLeastOnce(q', d);
      UniqueQuotient(q - 1, r, q' - 1, r', d);
    }
  }

  lemma DivMod(q: nat, d: nat, r: nat)
    requires r < d
    ensures (q * d + r) / d == q && (q * d + r) % d == r
  {
    var x := q * d + r;
    UniqueQuotient(q, r, x / d, x % d, d);
  }

  lemma PackFits(w: Word)
    requires Fits(w)
    ensures Pack(w) < WORD_SIZE
  {
  }

  /** Comparing words compares the three fields. */
  lemma UnpackPack(w: Word)
    requires Fits(w)
    ensures Unpack(Pack(w)) == w
  {
    hide GetEpoch, GetThreadCount, GetInPrevious;
    PackedEpoch(w);
    PackedThreads(w);
    PackedPrevious(w);
  }

  lemma PackedEpoch(w: Word)
    requires Fits(w)
    ensures GetEpoch(Pack(w)) == w.epoch
  {
    DivMod(w.epoch, ONE_EPOCH, w.threads * ONE_THREAD + w.inPrevious);
  }

  lemma PackedThreads(w: Word)
    requires Fits(w)
    ensures GetThreadCount(Pack(w)) == w.threads
  {
    DivMod(w.epoch * COUNT_FIELD + w.threads, ONE_THREAD, w.inPrevious);
    DivMod(w.epoch, COUNT_FIELD, w.threads);
  }

  lemma PackedPrevious(w: Word)
    requires Fits(w)
    ensures GetInPrevious(Pack(w)) == w.inPrevious
  {
    DivMod(w.epoch * ONE_THREAD + w.threads * 4, COUNT_FIELD, w.inPrevious);
  }

  /** Every word is its three fields and the two unused bits between the counts. */
  lemma WordFields(w: nat) returns (unused: nat)
    requires w < WORD_SIZE
    ensures unused < 4 && Unpack(w).epoch < 4 && Unpack(w).threads < 1073741824 && Unpack(w).inPrevious < 1073741824
    ensures w == Unpack(w).epoch * 4611686018427387904 + Unpack(w).threads * 4294967296 + unused * 1073741824
                 + Unpack(w).inPrevious
  {
    var high, low := w / ONE_THREAD, w % ONE_THREAD;
    unused := low / COUNT_FIELD;
    DivMod(high / COUNT_FIELD, ONE_EPOCH, high % COUNT_FIELD * ONE_THREAD + low);
    DivMod(high * 4 + unused, COUNT_FIELD, low % COUNT_FIELD);
  }

  /** The code's word operation for a step that changes the state word. */
  function WordStep(s: State, step: Step): int
    requires Enabled(s, step)
  {
    var w, word := Pack(s.StateWord()), s.StateWord();
    match step
    case RegCas(_) => if word.inPrevious > 0 || word.threads == 0 then IncBoth(w) else IncThreadCount(w)
    case QFetchSub(_) => DecInPrevious(w)
    case ChangeCas(_) => IncEpochResetPrevious(w)
    case LeaveCas(t) =>
      if word.inPrevious == 0 then DecThreadCount(w)
      else if Advances(word, s.threads[t]) then IncEpochDecThreadCountResetPrevious(w)
      else if RemovesFromPrevious(word, s.threads[t]) then DecBoth(w)
      else DecThreadCount(w)
    case _ => w
  }

  lemma Wrapped(x: nat)
    requires x < WORD_SIZE
    ensures x % WORD_SIZE == x && (x + WORD_SIZE) % WORD_SIZE == x
  {
  }

  /** Adding to or subtracting from a packed word does the same to its fields, if they stay in range. */
  lemma CountsPacked(w: Word, w': Word)
    requires Fits(w) && Fits(w') && w'.epoch == w.epoch
    ensures w'.threads == w.threads + 1 && w'.inPrevious == w.inPrevious ==> IncThreadCount(Pack(w)) == Pack(w')
    ensures w'.threads == w.threads - 1 && w'.inPrevious == w.inPrevious ==> DecThreadCount(Pack(w)) == Pack(w')
    ensures w'.threads == w.threads + 1 && w'.inPrevious == w.inPrevious + 1 ==> IncBoth(Pack(w)) == Pack(w')
    ensures w'.threads == w.threads - 1 && w'.inPrevious == w.inPrevious - 1 ==> DecBoth(Pack(w)) == Pack(w')
    ensures w'.threads == w.threads && w'.inPrevious == w.inPrevious - 1 ==> DecInPrevious(Pack(w)) == Pack(w')
  {
    PackFits(w');
    Wrapped(Pack(w'));
  }

  /** Starting a new epoch puts every remaining thread into the previous one. */
  lemma EpochPacked(w: Word, w': Word)
    requires Fits(w) && w'.epoch == (w.epoch + 1) % 4 && w'.inPrevious == w'.threads
    ensures w'.threads == w.threads ==> IncEpochResetPrevious(Pack(w)) == Pack(w')
    ensures w'.threads == w.threads - 1 ==> IncEpochDecThreadCountResetPrevious(Pack(w)) == Pack(w')
  {
    hide GetEpoch, GetThreadCount, Pack;
    UnpackPack(w);
    assert Pack(w') == w'.epoch * ONE_EPOCH + w'.threads * ONE_THREAD + w'.inPrevious by { PackIs(w'); }
  }

  lemma PackIs(w: Word)
    ensures Pack(w) == w.epoch * ONE_EPOCH + w.threads * ONE_THREAD + w.inPrevious
  {
  }

  lemma EpochStep(e: nat)
    ensures EpochValue(e + 1) == (EpochValue(e) + 1) % 4
  {
  }

  /** The packed operations carry the protocol's steps, as long as the thread count fits its field. */
  lemma PackedStep(s: State, step: Step)
    requires Enabled(s, step)
    requires Fits(s.StateWord()) && Fits(Next(s, step).StateWord())
    ensures WordStep(s, step) == Pack(Next(s, step).StateWord())
  {
    hide Fits, Pack, EpochValue, ExecutePreviousPlace, AdvanceSeenPlace, Move, Handle, IncThreadCount, DecThreadCount,
      IncBoth, DecBoth, DecInPrevious, IncEpochResetPrevious, IncEpochDecThreadCountResetPrevious, RemovesFromPrevious;
    var w, w' := s.StateWord(), Next(s, step).StateWord();
    if w'.epoch == w.epoch { CountsPacked(w, w'); }
    if w'.epoch == EpochValue(s.epoch + 1) {
      EpochStep(s.epoch);
      if w'.inPrevious == w'.threads { EpochPacked(w, w'); }
    }
  }
}
