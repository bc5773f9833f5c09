// AES key wrap and unwrap: the indexed loops of the program against the shift-register
// definition in sections 2.2.1 to 2.2.3 of RFC 3394.
module KeyWrap {
  import opened Wrappers
  import opened Bytes
  import opened BlockCiphers

  type Register = s: seq<byte> | |s| == 8 witness Zeros(8)

  const IV: Register := [0xA6, 0xA6, 0xA6, 0xA6, 0xA6, 0xA6, 0xA6, 0xA6]

  // ----- the shift-register definition -----

  /** The integrity register and the n data registers. */
  datatype State = State(a: Register, r: seq<Register>)

  /** Step t of section 2.2.1: encrypt A | R[1], mix t into A, shift the registers left. */
  function ShiftStep(c: BlockCipher, s: State, t: nat): (s': State)
    requires s.r != []
    ensures |s'.r| == |s.r|
  {
    var b := c.encrypt(s.a + s.r[0]);
    State(XorSeq(b[..8], ToBytes(t, 8)), s.r[1..] + [b[8..]])
  }

  /** The state after steps 1, 2, ..., steps. */
  function Shift(c: BlockCipher, s: State, steps: nat): (s': State)
    requires s.r != []
    ensures |s'.r| == |s.r|
  {
    if steps == 0 then s else ShiftStep(c, Shift(c, s, steps - 1), steps)
  }

  /** Step t of section 2.2.2: take t out of A, decrypt A | R[n], shift the registers right. */
  function UnshiftStep(c: BlockCipher, s: State, t: nat): (s': State)
    requires s.r != []
    ensures |s'.r| == |s.r|
  {
    var b := c.decrypt(XorSeq(s.a, ToBytes(t, 8)) + s.r[|s.r| - 1]);
    State(b[..8], [b[8..]] + s.r[..|s.r| - 1])
  }

  /** Steps `steps`, `steps` - 1, ..., 1 of section 2.2.2. */
  function Unshift(c: BlockCipher, s: State, steps: nat): (s': State)
    requires s.r != []
    ensures |s'.r| == |s.r|
    decreases steps
  {
    if steps == 0 then s else Unshift(c, UnshiftStep(c, s, steps), steps - 1)
  }

  /**
   * The equations of step t in section 2.2.1 of RFC 3394, digit by digit: B = E(K, A | R[1]); A is the
   * first half of B with t, big-endian, exclusive-ored in; R[i] becomes R[i+1], and R[n] the second half.
   */
  lemma StepEquations(c: BlockCipher, s: State, t: nat, k: nat, i: nat, j: nat)
    requires s.r != [] && k < 8 && i < 8
    ensures var b, s' := c.encrypt(s.a + s.r[0]), ShiftStep(c, s, t);
            && (Bit(s'.a[k] as nat, i) == 1 <==> Bit(b[k] as nat, i) != Bit(t / Pow256(7 - k) % 256, i))
            && s'.r[|s.r| - 1] == b[8..]
            && (j < |s.r| - 1 ==> s'.r[j] == s.r[j + 1])
  {
    var b := c.encrypt(s.a + s.r[0]);
    XorSeqAt(b[..8], ToBytes(t, 8), k, i);
    ToBytesAt(t, 8, k);
  }

  lemma UnshiftStepUndoes(c: BlockCipher, s: State, t: nat)
    requires Inverse(c) && s.r != []
    ensures UnshiftStep(c, ShiftStep(c, s, t), t) == s
  {
    var x: Block := s.a + s.r[0];
    var b := c.encrypt(x);
    XorSeqUndo(b[..8], ToBytes(t, 8));
    assert b[..8] + b[8..] == b;
    assert x[..8] == s.a && x[8..] == s.r[0];
    var s' := ShiftStep(c, s, t);
    assert s'.r[..|s'.r| - 1] == s.r[1..];
    assert [s.r[0]] + s.r[1..] == s.r;
  }

  lemma ShiftStepUndoes(c: BlockCipher, s: State, t: nat)
    requires Inverse(c) && s.r != []
    ensures ShiftStep(c, UnshiftStep(c, s, t), t) == s
  {
    var mixed := XorSeq(s.a, ToBytes(t, 8));
    var x: Block := mixed + s.r[|s.r| - 1];
    var b := c.decrypt(x);
    XorSeqUndo(s.a, ToBytes(t, 8));
    assert b[..8] + b[8..] == b;
    assert x[..8] == mixed && x[8..] == s.r[|s.r| - 1];
    var s' := UnshiftStep(c, s, t);
    assert s'.r[1..] == s.r[..|s.r| - 1];
    assert s.r[..|s.r| - 1] + [s.r[|s.r| - 1]] == s.r;
  }

  lemma {:induction false} UnshiftUndoesShift(c: BlockCipher, s: State, steps: nat)
    requires Inverse(c) && s.r != []
    ensures Unshift(c, Shift(c, s, steps), steps) == s
  {
    hide XorSeq, ToBytes, ShiftStep, UnshiftStep;
    if steps > 0 {
      UnshiftStepUndoes(c, Shift(c, s, steps - 1), steps);
      UnshiftUndoesShift(c, s, steps - 1);
    }
  }

  lemma {:induction false} ShiftUndoesUnshift(c: BlockCipher, s: State, steps: nat)
    requires Inverse(c) && s.r != []
    ensures Shift(c, Unshift(c, s, steps), steps) == s
    decreases steps
  {
    hide XorSeq, ToBytes, ShiftStep, UnshiftStep;
    if steps > 0 {
      ShiftUndoesUnshift(c, UnshiftStep(c, s, steps), steps - 1);
      ShiftStepUndoes(c, s, steps);
    }
  }

  // ----- registers and byte strings -----

  function Registers(p: seq<byte>): (rs: seq<Register>)
    requires |p| % 8 == 0
    ensures |rs| == |p| / 8
  {
    if p == [] then [] else [p[..8]] + Registers(p[8..])
  }

  function Flatten(rs: seq<Register>): (p: seq<byte>)
    ensures |p| == 8 * |rs|
  {
    if rs == [] then [] else rs[0] + Flatten(rs[1..])
  }

  lemma {:induction false} FlattenRegisters(p: seq<byte>)
    requires |p| % 8 == 0
    ensures Flatten(Registers(p)) == p
  {
    if p != [] {
      FlattenRegisters(p[8..]);
      assert p == p[..8] + p[8..];
    }
  }

  lemma {:induction false} RegistersFlatten(rs: seq<Register>)
    ensures Registers(Flatten(rs)) == rs
  {
    if rs != [] {
      var p := Flatten(rs);
      assert p[..8] == rs[0] && p[8..] == Flatten(rs[1..]);
      RegistersFlatten(rs[1..]);
      assert rs == [rs[0]] + rs[1..];
    }
  }

  /** A state written out: A, then R[1] to R[n]. */
  function Emit(s: State): (c: seq<byte>)
    ensures |c| == 8 * (|s.r| + 1)
  {
    s.a + Flatten(s.r)
  }

  function Parse(c: seq<byte>): (s: State)
    requires |c| >= 8 && |c| % 8 == 0
    ensures |s.r| == |c| / 8 - 1
  {
    State(c[..8], Registers(c[8..]))
  }

  lemma ParseEmit(s: State)
    ensures Parse(Emit(s)) == s
  {
    var c := Emit(s);
    assert c[..8] == s.a && c[8..] == Flatten(s.r);
    RegistersFlatten(s.r);
  }

  lemma EmitParse(c: seq<byte>)
    requires |c| >= 8 && |c| % 8 == 0
    ensures Emit(Parse(c)) == c
  {
    FlattenRegisters(c[8..]);
    assert c[..8] + c[8..] == c;
  }

  // ----- the two operations on byte strings -----

  /** Section 2.2.1 of RFC 3394: the state before the first step. */
  function Initial(p: seq<byte>): State
    requires |p| % 8 == 0
  {
    State(IV, Registers(p))
  }

  /** Section 2.2.1 of RFC 3394 behind the program's argument checks. */
  function Wrap(aes: Aes, kek: seq<byte>, plaintext: seq<byte>): Result<seq<byte>, CryptoError> {
    if !KeySize(|kek|) then Err(WrongKeySize)
    else if |plaintext| == 0 || |plaintext| % 8 != 0 then Err(BadPlaintextSize)
    else Ok(Emit(Shift(aes(kek), Initial(plaintext), 6 * (|plaintext| / 8))))
  }

  /** Section 2.2.3 of RFC 3394: the key data is released only if A is the initial value. */
  function Released(s: State): Result<seq<byte>, CryptoError> {
    if s.a != IV then Err(IntegrityCheckFailed) else Ok(Flatten(s.r))
  }

  /** Sections 2.2.2 and 2.2.3 of RFC 3394 behind the program's argument checks. */
  function Unwrap(aes: Aes, kek: seq<byte>, ciphertext: seq<byte>): Result<seq<byte>, CryptoError> {
    if !KeySize(|kek|) then Err(WrongKeySize)
    else if |ciphertext| < 16 || |ciphertext| % 8 != 0 then Err(BadCiphertextSize)
    else
      Released(Unshift(aes(kek), Parse(ciphertext), 6 * (|ciphertext| / 8 - 1)))
  }

  /** Undoing every step of a full run: from any state, and to any state. */
  lemma RunsInvert(c: BlockCipher, s: State, s': State, steps: nat)
    requires Inverse(c) && s.r != [] && s'.r != []
    ensures Shift(c, s, steps) == s' <==> Unshift(c, s', steps) == s
  {
    UnshiftUndoesShift(c, s, steps);
    ShiftUndoesUnshift(c, s', steps);
  }

  lemma UnwrapUndoesWrap(aes: Aes, kek: seq<byte>, p: seq<byte>)
    requires Lawful(aes) && KeySize(|kek|)
    requires p != [] && |p| % 8 == 0
    ensures Wrap(aes, kek, p).Ok? && |Wrap(aes, kek, p).value| == |p| + 8
    ensures Unwrap(aes, kek, Wrap(aes, kek, p).value) == Ok(p)
  {
    var steps := 6 * (|p| / 8);
    var s := Shift(aes(kek), Initial(p), steps);
    RunsInvert(aes(kek), Initial(p), s, steps);
    ParseEmit(s);
    FlattenRegisters(p);
  }

  lemma UnwrapAcceptsOnlyWrapped(aes: Aes, kek: seq<byte>, c: seq<byte>)
    requires Lawful(aes)
    requires Unwrap(aes, kek, c).Ok?
    ensures Wrap(aes, kek, Unwrap(aes, kek, c).value) == Ok(c)
    ensures |c| == |Unwrap(aes, kek, c).value| + 8
  {
    hide Shift, Unshift, Registers, Flatten, Parse, Emit;
    var steps := 6 * (|c| / 8 - 1);
    var s := Unshift(aes(kek), Parse(c), steps);
    RunsInvert(aes(kek), s, Parse(c), steps);
    RegistersFlatten(s.r);
    EmitParse(c);
  }

  /** The integrity check is exact: a string unwraps to `p` if and only if it is the wrapping of `p`. */
  lemma UnwrapIffWrapped(aes: Aes, kek: seq<byte>, p: seq<byte>, c: seq<byte>)
    requires Lawful(aes)
    ensures Unwrap(aes, kek, c) == Ok(p) <==> Wrap(aes, kek, p) == Ok(c)
  {
    if Unwrap(aes, kek, c) == Ok(p) {
      UnwrapAcceptsOnlyWrapped(aes, kek, c);
    }
    if Wrap(aes, kek, p) == Ok(c) {
      UnwrapUndoesWrap(aes, kek, p);
    }
  }

  lemma WrapInjective(aes: Aes, kek: seq<byte>, p: seq<byte>, q: seq<byte>)
    requires Lawful(aes)
    requires Wrap(aes, kek, p).Ok? && Wrap(aes, kek, p) == Wrap(aes, kek, q)
    ensures p == q
  {
    UnwrapUndoesWrap(aes, kek, p);
    UnwrapUndoesWrap(aes, kek, q);
  }

  // ----- what goes in and out, byte by byte -----

  lemma SliceLater(p: seq<byte>, skip: nat, at: nat)
    requires skip + at + 8 <= |p|
    ensures p[skip..][at..at + 8] == p[skip + at..skip + at + 8]
  {
  }

  lemma {:induction false} RegisterAt(p: seq<byte>, i: nat)
    requires |p| % 8 == 0 && 8 * (i + 1) <= |p|
    ensures Registers(p)[i] == p[8 * i..8 * (i + 1)]
  {
    if i > 0 {
      var rest := p[8..];
      RegisterAt(rest, i - 1);
      SliceLater(p, 8, 8 * (i - 1));
      assert Registers(p) == [p[..8]] + Registers(rest);
      hide Registers;
      assert Registers(p)[i] == Registers(rest)[i - 1];
    }
  }

  lemma {:induction false} FlattenAt(rs: seq<Register>, i: nat)
    requires i < |rs|
    ensures Flatten(rs)[8 * i..8 * (i + 1)] == rs[i]
  {
    RegistersFlatten(rs);
    RegisterAt(Flatten(rs), i);
  }

  /** Eight bytes A6: the initial value of section 2.2.3.1 of RFC 3394. */
  predicate AllA6(a: seq<byte>) {
    |a| == 8 && forall k :: 0 <= k < 8 ==> a[k] == 0xA6
  }

  lemma EmitAt(s: State, i: nat)
    requires i < |s.r|
    ensures Emit(s)[..8] == s.a && Emit(s)[8 * (i + 1)..8 * (i + 2)] == s.r[i]
  {
    FlattenAt(s.r, i);
    hide Flatten;
    var f := Flatten(s.r);
    assert (s.a + f)[8 * (i + 1)..8 * (i + 2)] == f[8 * i..8 * (i + 1)];
  }

  lemma IsIv(a: Register)
    ensures AllA6(a) <==> a == IV
  {
  }

  /** Wrapping accepts keys of 16, 24 and 32 bytes and whole, at least one, 8-byte blocks. */
  lemma WrapAcceptsIff(aes: Aes, kek: seq<byte>, p: seq<byte>)
    ensures var keyFits := |kek| == 16 || |kek| == 24 || |kek| == 32;
            && (Wrap(aes, kek, p).Ok? <==> keyFits && p != [] && |p| % 8 == 0)
            && (!keyFits ==> Wrap(aes, kek, p) == Err(WrongKeySize))
            && (keyFits && Wrap(aes, kek, p).Err? ==> Wrap(aes, kek, p) == Err(BadPlaintextSize))
  {
    hide Emit, Shift, Initial;
  }

  /**
   * It starts from eight bytes A6 and the plaintext's blocks and takes six steps per block; the
   * ciphertext is the final A and then the final registers in order.
   */
  lemma WrapLayout(aes: Aes, kek: seq<byte>, p: seq<byte>, a: Register, i: nat)
    requires AllA6(a) && Wrap(aes, kek, p).Ok? && i < |p| / 8
    ensures |p| % 8 == 0 && Registers(p)[i] == p[8 * i..8 * (i + 1)]
    ensures var end, c := Shift(aes(kek), State(a, Registers(p)), 6 * (|p| / 8)), Wrap(aes, kek, p).value;
            |c| == |p| + 8 && c[..8] == end.a && c[8 * (i + 1)..8 * (i + 2)] == end.r[i]
  {
    hide Shift, Registers, Emit, AllA6;
    IsIv(a);
    RegisterAt(p, i);
    EmitAt(Shift(aes(kek), State(a, Registers(p)), 6 * (|p| / 8)), i);
  }

  /** Unwrapping accepts the same keys and two or more blocks, and then answers by the run back. */
  lemma UnwrapRefuses(aes: Aes, kek: seq<byte>, c: seq<byte>)
    ensures var keyFits := |kek| == 16 || |kek| == 24 || |kek| == 32;
            && (!keyFits ==> Unwrap(aes, kek, c) == Err(WrongKeySize))
            && (keyFits && (|c| < 16 || |c| % 8 != 0) ==> Unwrap(aes, kek, c) == Err(BadCiphertextSize))
            && (keyFits && |c| >= 16 && |c| % 8 == 0 && Unwrap(aes, kek, c).Err? ==>
                  Unwrap(aes, kek, c) == Err(IntegrityCheckFailed))
  {
    hide Parse, Unshift, Flatten;
  }

  /** It releases the registers, in order, exactly if the run back ends with eight bytes A6 in A. */
  lemma UnwrapReleasesIff(aes: Aes, kek: seq<byte>, c: seq<byte>, i: nat)
    requires (|kek| == 16 || |kek| == 24 || |kek| == 32) && |c| >= 16 && |c| % 8 == 0 && i < |c| / 8 - 1
    ensures var end, r := Unshift(aes(kek), State(c[..8], Registers(c[8..])), 6 * (|c| / 8 - 1)), Unwrap(aes, kek, c);
            && (r.Ok? <==> AllA6(end.a))
            && (r.Ok? ==> |r.value| == |c| - 8 && r.value[8 * i..8 * (i + 1)] == end.r[i])
            && Registers(c[8..])[i] == c[8 * (i + 1)..8 * (i + 2)]
  {
    hide Unshift, Registers, Flatten, AllA6;
    var end := Unshift(aes(kek), State(c[..8], Registers(c[8..])), 6 * (|c| / 8 - 1));
    IsIv(end.a);
    FlattenAt(end.r, i);
    RegisterAt(c[8..], i);
    SliceLater(c, 8, 8 * i);
  }

  // ----- the program's loops -----

  /** `xor64`: mixes the eight bytes of a counter into a register, last byte first. */
  method Xor64(in_: Register, counter: nat) returns (out: Register)
    ensures out == XorSeq(in_, ToBytes(counter, 8))
  {
    var mask := ToBytes(counter, 8);
    var buf := new byte[8](k requires 0 <= k < 8 => in_[k]);
    var t := counter;
    for i := 0 to 8
      invariant mask[..8 - i] == ToBytes(t, 8 - i)
      invariant forall k :: 0 <= k < 8 - i ==> buf[k] == in_[k]
      invariant forall k :: 8 - i <= k < 8 ==> buf[k] == XorByte(in_[k], mask[k])
    {
      assert mask[7 - i] == mask[..8 - i][7 - i];
      assert mask[..7 - i] == mask[..8 - i][..7 - i];
      buf[7 - i] := XorByte(buf[7 - i], (t % 256) as byte);
      t := t / 256;
    }
    out := buf[..];
  }

  /** `block.Encrypt(buf, buf)`. */
  method EncryptInPlace(c: BlockCipher, buf: array<byte>)
    requires buf.Length == 16
    modifies buf
    ensures buf[..] == c.encrypt(old(buf[..]))
  {
    var out := c.encrypt(buf[..]);
    CopyInto(buf, 0, out);
  }

  /** `block.Decrypt(buf, buf)`. */
  method DecryptInPlace(c: BlockCipher, buf: array<byte>)
    requires buf.Length == 16
    modifies buf
    ensures buf[..] == c.decrypt(old(buf[..]))
  {
    var out := c.decrypt(buf[..]);
    CopyInto(buf, 0, out);
  }

  // ----- the nested loops against the shift register -----

  /** The register file read from position `i` round to position `i`. */
  function Rotated(r: seq<Register>, i: nat): seq<Register>
    requires i <= |r|
  {
    r[i..] + r[..i]
  }

  /** The file read from position `i` is what the definition's registers hold after `steps` steps. */
  ghost predicate Matches(c: BlockCipher, start: State, steps: nat, a: Register, file: seq<Register>, i: nat) {
    start.r != [] && i <= |file| && State(a, Rotated(file, i)) == Shift(c, start, steps)
  }

  /** With `left` steps still to undo, the file read from position `i` leads where `end` leads. */
  ghost predicate Leads(c: BlockCipher, end: State, steps: nat, a: Register, file: seq<Register>, i: nat, left: nat) {
    && end.r != [] && file != [] && i <= |file|
    && Unshift(c, State(a, Rotated(file, i)), left) == Unshift(c, end, steps)
  }

  /** Reading from the end is reading from the start: the hand-over between two passes. */
  lemma RotatedAround(file: seq<Register>)
    ensures Rotated(file, 0) == file == Rotated(file, |file|)
  {
  }

  lemma MatchesAround(c: BlockCipher, start: State, steps: nat, a: Register, file: seq<Register>)
    requires Matches(c, start, steps, a, file, |file|)
    ensures Matches(c, start, steps, a, file, 0)
  {
    RotatedAround(file);
  }

  lemma LeadsAround(c: BlockCipher, end: State, steps: nat, a: Register, file: seq<Register>, left: nat)
    requires Leads(c, end, steps, a, file, 0, left)
    ensures Leads(c, end, steps, a, file, |file|, left)
  {
    RotatedAround(file);
  }

  lemma MatchesFrom(c: BlockCipher, start: State)
    requires start.r != []
    ensures Matches(c, start, 0, start.a, start.r, 0)
  {
    RotatedAround(start.r);
  }

  lemma MatchesDone(c: BlockCipher, start: State, steps: nat, a: Register, file: seq<Register>)
    requires Matches(c, start, steps, a, file, 0)
    ensures State(a, file) == Shift(c, start, steps)
  {
    RotatedAround(file);
  }

  lemma LeadsFrom(c: BlockCipher, end: State, steps: nat)
    requires end.r != []
    ensures Leads(c, end, steps, end.a, end.r, |end.r|, steps)
  {
    RotatedAround(end.r);
  }

  lemma LeadsDone(c: BlockCipher, end: State, steps: nat, a: Register, file: seq<Register>)
    requires Leads(c, end, steps, a, file, |file|, 0)
    ensures State(a, file) == Unshift(c, end, steps)
  {
    RotatedAround(file);
  }

  /** Storing at position i what a step appends moves the reading position on by one. */
  lemma MatchesStep(c: BlockCipher, start: State, done: nat, a: Register, file: seq<Register>, i: nat, b: Block)
    requires i < |file| && Matches(c, start, done, a, file, i) && b == c.encrypt(a + file[i])
    ensures Matches(c, start, done + 1, XorSeq(b[..8], ToBytes(done + 1, 8)), file[i := b[8..]], i + 1)
  {
    var before := Rotated(file, i);
    assert before[0] == file[i];
    assert Rotated(file[i := b[8..]], i + 1) == before[1..] + [b[8..]];
    hide XorSeq, ToBytes, Rotated;
    assert Shift(c, start, done + 1) == ShiftStep(c, State(a, before), done + 1);
  }

  lemma RotatedBack(file: seq<Register>, i: nat, r: Register)
    requires i < |file|
    ensures Rotated(file[i := r], i) == [r] + (file[i + 1..] + file[..i])
  {
    assert file[i := r][i..] == [r] + file[i + 1..];
  }

  lemma LeadsStep(c: BlockCipher, end: State, steps: nat, a: Register, file: seq<Register>, i: nat, left: nat, b: Block)
    requires i < |file| && Leads(c, end, steps, a, file, i + 1, left + 1)
    requires b == c.decrypt(XorSeq(a, ToBytes(left + 1, 8)) + file[i])
    ensures Leads(c, end, steps, b[..8], file[i := b[8..]], i, left)
  {
    var before := Rotated(file, i + 1);
    assert before[|before| - 1] == file[i];
    assert before[..|before| - 1] == file[i + 1..] + file[..i];
    RotatedBack(file, i, b[8..]);
    hide XorSeq, ToBytes, Rotated;
    assert Unshift(c, State(a, before), left + 1) == Unshift(c, UnshiftStep(c, State(a, before), left + 1), left);
  }

  /** The body of the inner loop of `aesKeyWrap` at register `i`; the counter is `done` + 1. */
  method WrapRound(c: BlockCipher, buf: array<byte>, a: Register, r: array<Register>, i: nat, done: nat,
                   ghost start: State)
    returns (a': Register)
    requires buf.Length == 16 && i < r.Length
    requires Matches(c, start, done, a, r[..], i)
    modifies buf, r
    ensures Matches(c, start, done + 1, a', r[..], i + 1)
  {
    hide Matches, Rotated, XorSeq, ToBytes;
    CopyInto(buf, 0, a);
    CopyInto(buf, 8, r[i]);
    assert buf[..] == a + r[i];
    EncryptInPlace(c, buf);
    ghost var b := buf[..];
    assert buf[..8] == b[..8] && buf[8..] == b[8..];
    MatchesStep(c, start, done, a, r[..], i, b);
    a' := Xor64(buf[..8], done + 1);
    r[i] := buf[8..];
    assert r[..] == old(r[..])[i := b[8..]];
  }

  /** The body of the inner loop of `aesKeyUnwrap` at register `i`; the counter is `left` + 1. */
  method UnwrapRound(c: BlockCipher, buf: array<byte>, a: Register, r: array<Register>, i: nat, left: nat,
                     ghost end: State, ghost steps: nat)
    returns (a': Register)
    requires buf.Length == 16 && i < r.Length
    requires Leads(c, end, steps, a, r[..], i + 1, left + 1)
    modifies buf, r
    ensures Leads(c, end, steps, a', r[..], i, left)
  {
    hide Leads, Rotated, XorSeq, ToBytes;
    var mixed: seq<byte> := Xor64(a, left + 1);
    CopyInto(buf, 0, mixed);
    CopyInto(buf, 8, r[i]);
    assert buf[..] == mixed + r[i];
    DecryptInPlace(c, buf);
    ghost var b := buf[..];
    assert buf[..8] == b[..8] && buf[8..] == b[8..];
    LeadsStep(c, end, steps, a, r[..], i, left, b);
    a' := buf[..8];
    r[i] := buf[8..];
    assert r[..] == old(r[..])[i := b[8..]];
  }

  /** `out` followed by every register in turn. */
  method AppendRegisters(prefix: seq<byte>, r: array<Register>) returns (out: seq<byte>)
    ensures out == prefix + Flatten(r[..])
  {
    out := prefix;
    for i := 0 to r.Length
      invariant out + Flatten(r[i..]) == prefix + Flatten(r[..])
    {
      assert r[i..][0] == r[i] && r[i..][1..] == r[i + 1..];
      assert out + Flatten(r[i..]) == (out + r[i]) + Flatten(r[i + 1..]);
      out := out + r[i];
    }
  }

  /** The loop that cuts a byte string into registers. */
  method LoadRegisters(p: seq<byte>) returns (r: array<Register>)
    requires |p| % 8 == 0
    ensures fresh(r) && r[..] == Registers(p)
  {
    hide Registers;
    var n := |p| / 8;
    r := new Register[n];
    for i := 0 to n
      invariant forall k :: 0 <= k < i ==> r[k] == Registers(p)[k]
    {
      RegisterAt(p, i);
      r[i] := p[i * 8..(i + 1) * 8];
    }
    assert r[..] == Registers(p);
  }

  /** The steps done before register i of pass j; the program's counter there is n*j + i + 1. */
  function Done(n: nat, j: nat, i: nat): nat {
    n * j + i
  }

  lemma PassEnds(n: nat, j: nat)
    ensures Done(n, j, n) == Done(n, j + 1, 0)
  {
  }

  /**
   * The inner loop of `aesKeyWrap` for one j. Its invariant is the correspondence with the
   * shift register, rotated by i.
   */
  method WrapPass(c: BlockCipher, buf: array<byte>, a: Register, r: array<Register>, j: nat, ghost start: State)
    returns (a': Register)
    requires buf.Length == 16
    requires Matches(c, start, Done(r.Length, j, 0), a, r[..], 0)
    modifies buf, r
    ensures Matches(c, start, Done(r.Length, j, r.Length), a', r[..], 0)
  {
    hide Matches, Shift, Rotated;
    a' := a;
    var n := r.Length;
    for i := 0 to n
      invariant Matches(c, start, Done(n, j, i), a', r[..], i)
    {
      a' := WrapRound(c, buf, a', r, i, Done(n, j, i), start);
    }
    MatchesAround(c, start, Done(n, j, n), a', r[..]);
  }

  /** The inner loop of `aesKeyUnwrap` for one j: the counter runs from n*j + n down to n*j + 1. */
  method UnwrapPass(c: BlockCipher, buf: array<byte>, a: Register, r: array<Register>, j: nat,
                    ghost end: State, ghost steps: nat)
    returns (a': Register)
    requires buf.Length == 16
    requires Leads(c, end, steps, a, r[..], r.Length, Done(r.Length, j, r.Length))
    modifies buf, r
    ensures Leads(c, end, steps, a', r[..], r.Length, Done(r.Length, j, 0))
  {
    hide Leads, Unshift, Rotated;
    a' := a;
    var n := r.Length;
    var i := n;
    while i > 0
      invariant 0 <= i <= n
      invariant Leads(c, end, steps, a', r[..], i, Done(n, j, i))
    {
      i := i - 1;
      a' := UnwrapRound(c, buf, a', r, i, Done(n, j, i), end, steps);
    }
    LeadsAround(c, end, steps, a', r[..], Done(n, j, 0));
  }

  /** The six passes of `aesKeyWrap`. */
  method WrapPasses(c: BlockCipher, r: array<Register>) returns (a: Register)
    requires r.Length > 0
    modifies r
    ensures State(a, r[..]) == Shift(c, State(IV, old(r[..])), 6 * r.Length)
  {
    hide Matches, Rotated, Shift;
    a := IV;
    var n := r.Length;
    var buf := new byte[16](_ => 0);
    ghost var start := State(IV, r[..]);
    MatchesFrom(c, start);
    for j := 0 to 6
      invariant Matches(c, start, Done(n, j, 0), a, r[..], 0)
    {
      a := WrapPass(c, buf, a, r, j, start);
      PassEnds(n, j);
    }
    MatchesDone(c, start, 6 * n, a, r[..]);
  }

  /** The six passes of `aesKeyUnwrap`. */
  method UnwrapPasses(c: BlockCipher, first: Register, r: array<Register>) returns (a: Register)
    requires r.Length > 0
    modifies r
    ensures State(a, r[..]) == Unshift(c, State(first, old(r[..])), 6 * r.Length)
  {
    hide Leads, Rotated, Unshift;
    a := first;
    var n := r.Length;
    var buf := new byte[16](_ => 0);
    ghost var end := State(first, r[..]);
    LeadsFrom(c, end, Done(n, 6, 0));
    for j := 6 downto 0
      invariant Leads(c, end, Done(n, 6, 0), a, r[..], n, Done(n, j, 0))
    {
      PassEnds(n, j);
      a := UnwrapPass(c, buf, a, r, j, end, Done(n, 6, 0));
    }
    LeadsDone(c, end, Done(n, 6, 0), a, r[..]);
  }

  /** `aesKeyWrap` writes exactly what section 2.2.1 of RFC 3394 defines. */
  method AesKeyWrap(aes: Aes, kek: seq<byte>, plaintext: seq<byte>) returns (res: Result<seq<byte>, CryptoError>)
    ensures res == Wrap(aes, kek, plaintext)
  {
    KwKeyAccepted(kek);
    var selected := SelectAesKey(kek, MapKwAlg(|kek|));
    if selected.Err? {
      return Err(selected.error);
    }
    if |plaintext| == 0 || |plaintext| % 8 != 0 {
      return Err(BadPlaintextSize);
    }
    var r := LoadRegisters(plaintext);
    var a := WrapPasses(aes(kek), r);
    var out := AppendRegisters(a, r);
    return Ok(out);
  }

  /** `aesKeyUnwrap` computes exactly what sections 2.2.2 and 2.2.3 of RFC 3394 define. */
  method AesKeyUnwrap(aes: Aes, kek: seq<byte>, ciphertext: seq<byte>) returns (res: Result<seq<byte>, CryptoError>)
    ensures res == Unwrap(aes, kek, ciphertext)
  {
    KwKeyAccepted(kek);
    var selected := SelectAesKey(kek, MapKwAlg(|kek|));
    if selected.Err? {
      return Err(selected.error);
    }
    if |ciphertext| < 16 || |ciphertext| % 8 != 0 {
      return Err(BadCiphertextSize);
    }
    var r := LoadRegisters(ciphertext[8..]);
    var a := UnwrapPasses(aes(kek), ciphertext[..8], r);
    assert r.Length == |ciphertext| / 8 - 1;
    if a != IV {
      return Err(IntegrityCheckFailed);
    }
    ghost var s := Unshift(aes(kek), Parse(ciphertext), 6 * (|ciphertext| / 8 - 1));
    assert State(a, r[..]) == s;
    var out := AppendRegisters([], r);
    assert out == Flatten(s.r);
    return Ok(out);
  }
}
