/**
  Blinding of answers (src/worker/session.go:140-148) and its removal (src/master/session.go:171-175).
  An answer and a key are 160-bit numbers, the big-endian readings of their 20 bytes.
*/
module Blinding {
  import opened Words

  const M160: int := 0x1_0000000000_0000000000_0000000000_0000000000
  const M152: int := 0x1_00000000_0000000000_0000000000_0000000000

  type HashVal = x: int | 0 <= x < 0x1_0000000000_0000000000_0000000000_0000000000

  /** Which 20 bytes of a big integer are kept: a fixed-width form, or the first 20 bytes of the
      minimal-length form as the source has it. */
  datatype Form = FixedWidth | MinimalLength

  /** `x.Bytes()[:20]` of a number below 2^168: with 21 bytes the lowest is cut off, with fewer than
      20 the slice expression panics, which is the answer `None`. */
  function First20(x: nat): Option<HashVal>
    requires x < 0x100 * M160
  {
    if x < M152 then None
    else if x < M160 then Some(x)
    else Some(x / 0x100)
  }

  function Blind(form: Form, answer: HashVal, key: HashVal): Option<HashVal> {
    match form
    case FixedWidth => Some((answer + key) % M160)
    case MinimalLength => First20(answer + key)
  }

  function Magnitude(x: int): nat { if x < 0 then -x else x }

  function Unblind(form: Form, blinded: HashVal, key: HashVal): Option<HashVal> {
    match form
    case FixedWidth => Some((blinded - key) % M160)
    case MinimalLength => First20(Magnitude(blinded - key))
  }

  /** What the master recovers from what the worker submits. */
  function Recovered(form: Form, answer: HashVal, key: HashVal): Option<HashVal> {
    match Blind(form, answer, key)
    case None => None
    case Some(b) => Unblind(form, b, key)
  }

  /** The fixed-width form cancels for every answer and every key. */
  lemma FixedWidthCancels(answer: HashVal, key: HashVal)
    ensures Recovered(FixedWidth, answer, key) == Some(answer)
  {
    var sum := answer + key;
    if sum < M160 {
      assert sum % M160 == sum;
    } else {
      assert sum % M160 == sum - M160;
      assert (sum - M160 - key) % M160 == answer;
    }
  }

  /** When the form of the source cancels: the answer has 20 significant bytes, and either the sum
      does not carry, or the cut-off byte happens to turn the difference into the answer again. */
  predicate LiteralCancels(answer: HashVal, key: HashVal) {
    M152 <= answer && (answer + key < M160 || key - answer == (answer + key) / 0x100)
  }

  lemma LiteralBlindingExact(answer: HashVal, key: HashVal)
    ensures Recovered(MinimalLength, answer, key) == Some(answer) <==> LiteralCancels(answer, key)
  {
    var sum := answer + key;
    if M160 <= sum {
      var b := sum / 0x100;
      assert b < M152 * 2;
      assert b - key != answer;
    }
  }

  /** The two ways it fails, and the carry that cancels nevertheless. */
  lemma LiteralBlindingExamples()
    ensures Blind(MinimalLength, 5, 7) == None
    ensures Blind(MinimalLength, M160 - 1, 1) == Some(M152) && Recovered(MinimalLength, M160 - 1, 1) == None
    ensures var a, k := M160 / 2 - M152 / 2, M160 / 2 + M152 / 2;
      a + k == M160 && Recovered(MinimalLength, a, k) == Some(a)
  {}

  /** Over a whole vector. */
  function BlindAll(form: Form, answers: seq<HashVal>, key: HashVal): Option<seq<HashVal>> {
    if answers == [] then Some([])
    else match (Blind(form, answers[0], key), BlindAll(form, answers[1..], key))
      case (Some(b), Some(bs)) => Some([b] + bs)
      case _ => None
  }

  function UnblindAll(form: Form, blinded: seq<HashVal>, key: HashVal): Option<seq<HashVal>> {
    if blinded == [] then Some([])
    else match (Unblind(form, blinded[0], key), UnblindAll(form, blinded[1..], key))
      case (Some(a), Some(xs)) => Some([a] + xs)
      case _ => None
  }

  lemma {:induction false} VectorCancels(form: Form, answers: seq<HashVal>, key: HashVal)
    requires form == FixedWidth || forall a | a in answers :: LiteralCancels(a, key)
    ensures var b := BlindAll(form, answers, key);
      b.Some? && |b.value| == |answers| && UnblindAll(form, b.value, key) == Some(answers)
    decreases |answers|
  {
    if answers != [] {
      VectorCancels(form, answers[1..], key);
      if form == FixedWidth {
        FixedWidthCancels(answers[0], key);
      } else {
        assert answers[0] in answers;
        LiteralBlindingExact(answers[0], key);
      }
      var b := BlindAll(form, answers, key).value;
      assert b[1..] == BlindAll(form, answers[1..], key).value;
      assert answers == [answers[0]] + answers[1..];
    }
  }

  ghost function After(done: seq<HashVal>, rest: Option<seq<HashVal>>): Option<seq<HashVal>> {
    match rest case None => None case Some(bs) => Some(done + bs)
  }

  lemma AfterNone(rest: Option<seq<HashVal>>)
    ensures After([], rest) == rest
  {
    if rest.Some? { assert [] + rest.value == rest.value; }
  }

  lemma AfterOne(done: seq<HashVal>, b: HashVal, rest: Option<seq<HashVal>>)
    ensures After(done, After([b], rest)) == After(done + [b], rest)
  {
    if rest.Some? { assert done + ([b] + rest.value) == done + [b] + rest.value; }
  }

  /** The worker's loop, which overwrites the answer array in place. `ok` is false where the source
      panics. */
  method BlindInPlace(form: Form, ans: array<HashVal>, key: HashVal) returns (ok: bool)
    modifies ans
    ensures ok <==> BlindAll(form, old(ans[..]), key).Some?
    ensures ok ==> Some(ans[..]) == BlindAll(form, old(ans[..]), key)
  {
    ghost var all := ans[..];
    AfterNone(BlindAll(form, all, key));
    assert all[0..] == all && ans[..0] == [];
    for i := 0 to ans.Length
      invariant ans[i..] == all[i..]
      invariant BlindAll(form, all, key) == After(ans[..i], BlindAll(form, all[i..], key))
    {
      assert all[i..][0] == all[i] && all[i..][1..] == all[i + 1..];
      match Blind(form, ans[i], key)
      case None => return false;
      case Some(b) =>
        AfterOne(ans[..i], b, BlindAll(form, all[i + 1..], key));
        ans[i] := b;
        assert ans[..i + 1] == ans[..i] + [b];
    }
    assert ans[..] == ans[..ans.Length] && all[ans.Length..] == [];
    assert ans[..] + [] == ans[..];
    ok := true;
  }
}
