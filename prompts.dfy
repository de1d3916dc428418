/**
 * The interactive helpers of tools/functions.py. The user's keyboard is a
 * script of answers, one per `input()` call; a prompt that re-asks consumes the
 * next answer. The file system seen by `safe_remove` is a script of per-attempt
 * outcomes.
 */
module Prompts {
  import opened Basics
  import opened Text

  /** What a prompt yields: a value and the number of answers it consumed, or the script ran out. */
  datatype Reply<T> = Answer(value: T, used: nat) | OutOfInput

  /** The reply of a prompt that was asked once more before giving `r`. */
  function Later<T>(r: Reply<T>): Reply<T>
  {
    match r
    case Answer(v, n) => Answer(v, n + 1)
    case OutOfInput => OutOfInput
  }

  /**
   * Asks until an answer is valid: `classify` gives the value of a valid
   * answer and `None` for one after which the prompt repeats itself.
   * The reply is the first valid answer of the script.
   */
  function Ask<T>(answers: seq<string>, classify: string -> Option<T>): (r: Reply<T>)
    ensures r.Answer? ==> 1 <= r.used <= |answers| && classify(answers[r.used - 1]) == Some(r.value)
    ensures r.Answer? ==> forall j :: 0 <= j < r.used - 1 ==> classify(answers[j]).None?
    ensures r.OutOfInput? ==> forall j :: 0 <= j < |answers| ==> classify(answers[j]).None?
  {
    if answers == [] then OutOfInput
    else match classify(answers[0])
      case Some(v) => Answer(v, 1)
      case None => Later(Ask(answers[1..], classify))
  }

  predicate IsYes(word: string)
  {
    word == "y" || word == "yes" || word == "true"
  }

  predicate IsNo(word: string)
  {
    word == "n" || word == "no" || word == "false"
  }

  /** One answer to `get_conformation`: lower-cased (not stripped), then yes or no. */
  function ConfirmWord(ans: string): Option<bool>
  {
    var word := Lower(ans);
    if IsYes(word) then Some(true) else if IsNo(word) then Some(false) else None
  }

  /**
   * `get_conformation`: true for y/yes/true, false for n/no/false, in any
   * case; every other answer asks again.
   */
  function GetConformation(answers: seq<string>): (r: Reply<bool>)
    ensures r.Answer? ==> 1 <= r.used <= |answers|
    ensures r.Answer? ==> (r.value <==> IsYes(Lower(answers[r.used - 1])))
    ensures r.Answer? ==> (!r.value <==> IsNo(Lower(answers[r.used - 1])))
    ensures r.Answer? ==> forall j :: 0 <= j < r.used - 1 ==> !IsYes(Lower(answers[j])) && !IsNo(Lower(answers[j]))
    ensures r.OutOfInput? ==> forall j :: 0 <= j < |answers| ==> !IsYes(Lower(answers[j])) && !IsNo(Lower(answers[j]))
  {
    var r := Ask(answers, ConfirmWord);
    assert forall j :: 0 <= j < |answers| && ConfirmWord(answers[j]).None? ==> !IsYes(Lower(answers[j])) && !IsNo(Lower(answers[j]));
    r
  }

  /** The upper limit of `get_int_in_range`, whose default is `float("inf")`. */
  datatype Bound = Finite(limit: int) | Infinity

  predicate InRange(n: int, lo: int, hi: Bound)
  {
    lo <= n && (hi.Finite? ==> n <= hi.limit)
  }

  /** How `get_int_in_range` reads one answer. */
  datatype Reading = Blank | NotInt | Int(n: int)

  /** `ans.strip() == ""`, else `int(ans)` or the `ValueError` it raises. */
  function Read(ans: string): Reading
  {
    var t := Strip(ans);
    if t == [] then Blank
    else match ParseSigned(t)
      case Some(n) => Int(n)
      case None => NotInt
  }

  /** A reading is blank exactly for a blank answer, else the integer `int(ans)` or its failure. */
  lemma ReadMeaning(ans: string)
    ensures Read(ans) == Blank <==> IsBlank(ans)
    ensures Read(ans).Int? <==> ParseInt(ans).Some?
    ensures Read(ans).Int? ==> ParseInt(ans) == Some(Read(ans).n)
    ensures Read(ans) == NotInt <==> !IsBlank(ans) && ParseInt(ans).None?
  {
    if IsBlank(ans) {
      BlankIsNotInt(ans);
    }
  }

  /** The answer `str(n)` reads as the integer `n`. */
  lemma ReadNat(n: nat)
    ensures Read(NatToString(n)) == Int(n)
  {
    NatRoundTrip(n);
    ReadMeaning(NatToString(n));
  }

  /**
   * The retry logic of `get_int_in_range` for any way of reading an answer.
   * A blank answer gives the default, unchecked; otherwise the answer must be
   * an integer within `lo..hi`. After an answer that is not an integer (a blank
   * one included, when there is no default) the prompt is asked again WITHOUT
   * the default; after one out of range, with it.
   */
  function IntPrompt(answers: seq<string>, read: string -> Reading, lo: int, hi: Bound, default: Option<int>): (r: Reply<int>)
    ensures r.Answer? ==> 1 <= r.used <= |answers|
    ensures r.Answer? ==>
      (read(answers[r.used - 1]) == Int(r.value) && InRange(r.value, lo, hi))
      || (read(answers[r.used - 1]) == Blank && default == Some(r.value))
  {
    if answers == [] then OutOfInput
    else match read(answers[0])
      case Blank =>
        if default.Some? then Answer(default.value, 1)
        else Later(IntPrompt(answers[1..], read, lo, hi, None))
      case NotInt => Later(IntPrompt(answers[1..], read, lo, hi, None))
      case Int(n) =>
        if InRange(n, lo, hi) then Answer(n, 1) else Later(IntPrompt(answers[1..], read, lo, hi, default))
  }

  /** `get_int_in_range(prompt, lo, hi, default)` over a script of answers. */
  function GetIntInRange(answers: seq<string>, lo: int, hi: Bound, default: Option<int>): (r: Reply<int>)
    ensures r.Answer? ==> 1 <= r.used <= |answers|
    ensures r.Answer? ==>
      (Read(answers[r.used - 1]) == Int(r.value) && InRange(r.value, lo, hi))
      || (Read(answers[r.used - 1]) == Blank && default == Some(r.value))
  {
    IntPrompt(answers, Read, lo, hi, default)
  }

  /** A blank first answer yields the default without any range check. */
  lemma BlankTakesDefault(answers: seq<string>, lo: int, hi: Bound, d: int)
    requires |answers| > 0 && IsBlank(answers[0])
    ensures GetIntInRange(answers, lo, hi, Some(d)) == Answer(d, 1)
  {
  }

  /**
   * After an answer that is not an integer the prompt is asked again without
   * the default, so a later blank answer no longer yields it.
   */
  lemma ParseErrorForgetsDefault(answers: seq<string>, read: string -> Reading, lo: int, hi: Bound, default: Option<int>)
    requires |answers| > 0 && read(answers[0]) == NotInt
    ensures IntPrompt(answers, read, lo, hi, default) == Later(IntPrompt(answers[1..], read, lo, hi, None))
    ensures var r := IntPrompt(answers, read, lo, hi, default);
      r.Answer? ==> r.used >= 2 && read(answers[r.used - 1]) == Int(r.value) && InRange(r.value, lo, hi)
  {
    var r' := IntPrompt(answers[1..], read, lo, hi, None);
    assert r'.Answer? ==> answers[1..][r'.used - 1] == answers[r'.used];
  }

  /** After an integer out of range, the prompt is asked again with the same default. */
  lemma RangeErrorKeepsDefault(answers: seq<string>, read: string -> Reading, lo: int, hi: Bound, default: Option<int>)
    requires |answers| > 0 && read(answers[0]).Int? && !InRange(read(answers[0]).n, lo, hi)
    ensures IntPrompt(answers, read, lo, hi, default) == Later(IntPrompt(answers[1..], read, lo, hi, default))
  {
  }

  /** The default in force when the answer at index `i` is read: gone once an earlier answer was not an integer. */
  ghost function DefaultAt(answers: seq<string>, read: string -> Reading, default: Option<int>, i: nat): Option<int>
    requires i <= |answers|
  {
    if exists j :: 0 <= j < i && !read(answers[j]).Int? then None else default
  }

  /** Whether the prompt stops at an answer read as `a` when the default in force is `current`. */
  predicate Accepts(a: Reading, current: Option<int>, lo: int, hi: Bound)
  {
    (a.Blank? && current.Some?) || (a.Int? && InRange(a.n, lo, hi))
  }

  /** The value the prompt returns when it stops at an answer read as `a`. */
  function Picked(a: Reading, current: Option<int>): int
    requires Accepts(a, current, 0, Infinity) || a.Int?
  {
    if a.Blank? then current.value else a.n
  }

  lemma DefaultAtShift(answers: seq<string>, read: string -> Reading, default: Option<int>, i: nat)
    requires |answers| > 0 && i < |answers|
    ensures DefaultAt(answers, read, default, i + 1)
         == DefaultAt(answers[1..], read, if read(answers[0]).Int? then default else None, i)
  {
    var tail := answers[1..];
    if exists j :: 0 <= j < i && !read(tail[j]).Int? {
      var j :| 0 <= j < i && !read(tail[j]).Int?;
      assert answers[j + 1] == tail[j];
    }
    if exists j :: 0 <= j < i + 1 && !read(answers[j]).Int? {
      var j :| 0 <= j < i + 1 && !read(answers[j]).Int?;
      if j > 0 {
        assert tail[j - 1] == answers[j];
      }
    }
  }

  /**
   * The reply of the prompt is an answer it accepts under the default then in
   * force, and the value read from that answer.
   */
  lemma {:induction false} IntPromptStopsAtAccepted(answers: seq<string>, read: string -> Reading, lo: int, hi: Bound, default: Option<int>)
    ensures var r := IntPrompt(answers, read, lo, hi, default);
      r.Answer? ==>
        && 1 <= r.used <= |answers|
        && Accepts(read(answers[r.used - 1]), DefaultAt(answers, read, default, r.used - 1), lo, hi)
        && r.value == Picked(read(answers[r.used - 1]), DefaultAt(answers, read, default, r.used - 1))
  {
    if answers == [] {
      return;
    }
    var first := read(answers[0]);
    assert DefaultAt(answers, read, default, 0) == default;
    if Accepts(first, default, lo, hi) {
      return;
    }
    var next := if first.Int? then default else None;
    var tail := answers[1..];
    var r' := IntPrompt(tail, read, lo, hi, next);
    assert IntPrompt(answers, read, lo, hi, default) == Later(r');
    IntPromptStopsAtAccepted(tail, read, lo, hi, next);
    if r'.Answer? {
      var k := r'.used - 1;
      DefaultAtShift(answers, read, default, k);
      assert answers[k + 1] == tail[k];
      assert DefaultAt(answers, read, default, k + 1) == DefaultAt(tail, read, next, k);
    }
  }

  /**
   * Every answer before the reply (every answer, when the script runs out) is
   * one the prompt does not accept under the default then in force: the reply
   * is the FIRST accepted answer.
   */
  lemma {:induction false} IntPromptSkipsRejected(answers: seq<string>, read: string -> Reading, lo: int, hi: Bound, default: Option<int>)
    ensures var r := IntPrompt(answers, read, lo, hi, default);
      var upTo := if r.Answer? then r.used - 1 else |answers|;
      upTo <= |answers|
      && forall j :: 0 <= j < upTo ==> !Accepts(read(answers[j]), DefaultAt(answers, read, default, j), lo, hi)
  {
    if answers == [] {
      return;
    }
    var first := read(answers[0]);
    assert DefaultAt(answers, read, default, 0) == default;
    if Accepts(first, default, lo, hi) {
      return;
    }
    var next := if first.Int? then default else None;
    var tail := answers[1..];
    var r' := IntPrompt(tail, read, lo, hi, next);
    var r := IntPrompt(answers, read, lo, hi, default);
    assert r == Later(r');
    IntPromptSkipsRejected(tail, read, lo, hi, next);
    var upTo := if r.Answer? then r.used - 1 else |answers|;
    forall j | 0 <= j < upTo
      ensures !Accepts(read(answers[j]), DefaultAt(answers, read, default, j), lo, hi)
    {
      if j > 0 {
        DefaultAtShift(answers, read, default, j - 1);
        assert answers[j] == tail[j - 1];
      }
    }
  }

  /** What one attempt of `safe_remove` meets. */
  datatype Attempt =
    | Removed   // the file existed and os.remove succeeded
    | Missing   // os.path.exists was false
    | Locked    // os.remove raised PermissionError
    | Raised    // os.remove raised any other error, which propagates

  /** How `safe_remove` ends. */
  datatype Removal = RemovedFile | NoFile | GaveUp | Propagated

  function Verdict(a: Attempt): Removal
  {
    match a
    case Removed => RemovedFile
    case Missing => NoFile
    case Locked => GaveUp
    case Raised => Propagated
  }

  /**
   * How `safe_remove` ends when attempt `i` is next: the verdict of the first
   * attempt from `i` on that meets no PermissionError, or giving up once
   * `retries` attempts are used.
   */
  function RemovalFrom(outcomes: nat -> Attempt, i: nat, retries: int): Removal
    decreases retries - i
  {
    if i >= retries then GaveUp
    else if outcomes(i) != Locked then Verdict(outcomes(i))
    else RemovalFrom(outcomes, i + 1, retries)
  }

  /**
   * `safe_remove(file, retries, delay)` against the outcomes of its attempts.
   * It stops at the first attempt that does not meet a PermissionError, sleeps
   * `delay` after each one that does, and gives up ("failed to remove file")
   * only after `retries` attempts all met one.
   */
  method SafeRemove(outcomes: nat -> Attempt, retries: int, delay: int)
    returns (result: Removal, attempts: nat, sleeps: seq<int>)
    ensures attempts <= (if retries > 0 then retries else 0)
    ensures forall i :: 0 <= i < attempts - 1 ==> outcomes(i) == Locked
    ensures result == GaveUp <==> forall i :: 0 <= i < retries ==> outcomes(i) == Locked
    ensures result == GaveUp ==> attempts == (if retries > 0 then retries else 0)
    ensures result != GaveUp ==> attempts >= 1 && outcomes(attempts - 1) != Locked && result == Verdict(outcomes(attempts - 1))
    ensures |sleeps| == (if result == GaveUp then attempts else attempts - 1)
    ensures forall k :: 0 <= k < |sleeps| ==> sleeps[k] == delay
    ensures result == RemovalFrom(outcomes, 0, retries)
  {
    attempts, sleeps := 0, [];
    var i := 0;
    while i < retries
      invariant 0 <= i <= (if retries > 0 then retries else 0)
      invariant attempts == i && |sleeps| == i
      invariant forall j :: 0 <= j < i ==> outcomes(j) == Locked
      invariant forall k :: 0 <= k < |sleeps| ==> sleeps[k] == delay
      invariant RemovalFrom(outcomes, i, retries) == RemovalFrom(outcomes, 0, retries)
    {
      var outcome := outcomes(i);
      attempts := attempts + 1;
      if outcome != Locked {
        result := Verdict(outcome);
        return;
      }
      sleeps := sleeps + [delay];
      i := i + 1;
    }
    result := GaveUp;
  }
}
