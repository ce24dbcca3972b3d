/** The value types shared by the whole model: scopes, records and their parts. */
module Core {

  datatype Option<+T> = None | Some(value: T)

  /** 64-bit unsigned integers, and `usize` on a 64-bit target. */
  const U64_MAX: int := 0xFFFF_FFFF_FFFF_FFFF

  type U64 = n: int | 0 <= n <= 0xFFFF_FFFF_FFFF_FFFF
  type I64 = n: int | -0x8000_0000_0000_0000 <= n < 0x8000_0000_0000_0000

  type ScopeId = U64
  type RecordId = U64

  datatype ExitMessages = ExitMessages(success: Option<string>, failure: Option<string>, aborted: Option<string>)

  const NO_MESSAGES := ExitMessages(None, None, None)

  datatype Scope = Scope(
    id: ScopeId,
    parent: Option<ScopeId>,
    enteredAt: U64,
    name: Option<string>,
    exitedAt: Option<U64>,
    exitMessages: ExitMessages)

  datatype Outcome = Success | Failure | Aborted

  datatype EventKind = Info | Warning | Error | Debug

  /** An `f64`. Finite values are opaque reals; a NaN carries the payload bits that the wire format forgets. */
  datatype Float = Finite(value: real) | NaN(payload: nat) | PosInf | NegInf

  datatype Value =
    | String(s: string)
    | Int(i: I64)
    | Uint(u: U64)
    | FloatValue(f: Float)
    | Bool(b: bool)
    | DurationMs(ms: U64)
    | Null

  datatype RecordKind =
    | Event(kind: EventKind, name: string, fields: map<string, Value>)
    | ScopeExit(outcome: Outcome, durationNs: U64)

  datatype Record = Record(id: RecordId, scope: Option<ScopeId>, timeNs: U64, kind: RecordKind)

  /** The part of a scope that no exit and no message update ever changes. */
  predicate SameIdentity(a: Scope, b: Scope) {
    a.id == b.id && a.parent == b.parent && a.enteredAt == b.enteredAt && a.name == b.name
  }

  function Or<T>(a: Option<T>, b: Option<T>): Option<T> {
    if a.Some? then a else b
  }

  /** Later messages win; an absent message keeps the earlier one. */
  function OverlayMessages(old_: ExitMessages, newer: ExitMessages): ExitMessages {
    ExitMessages(Or(newer.success, old_.success), Or(newer.failure, old_.failure), Or(newer.aborted, old_.aborted))
  }

  function Min(a: int, b: int): int {
    if a <= b then a else b
  }

  /** The next value of an atomic counter, which wraps. */
  function Successor(n: U64): U64 {
    if n == U64_MAX then 0 else n + 1
  }

  function ScopeIds(scopes: seq<Scope>): set<ScopeId> {
    set s | s in scopes :: s.id
  }

  lemma SeqAssociative<T>(a: seq<T>, b: seq<T>, c: seq<T>)
    ensures a + (b + c) == a + b + c
  {
  }

  /** What remains of `b`, in order, when some of its elements are left out. */
  ghost predicate Subsequence<T>(a: seq<T>, b: seq<T>) {
    a == [] || (b != [] && ((a[0] == b[0] && Subsequence(a[1..], b[1..])) || Subsequence(a, b[1..])))
  }

  // ---------- decimal numerals ----------

  function Digit(d: nat): char
    requires d < 10
  {
    ('0' as int + d) as char
  }

  function Decimal(n: nat): string {
    if n < 10 then [Digit(n)] else Decimal(n / 10) + [Digit(n % 10)]
  }

  lemma DecimalLength(n: nat)
    ensures |Decimal(n)| >= 1 && (|Decimal(n)| == 1 <==> n < 10)
  {
  }

  /** The number that a numeral denotes. */
  function Denotes(s: string): int {
    if s == "" then 0 else 10 * Denotes(s[..|s| - 1]) + (s[|s| - 1] as int - '0' as int)
  }

  lemma {:induction false} DecimalDenotes(n: nat)
    ensures Denotes(Decimal(n)) == n
  {
    var s := Decimal(n);
    if n >= 10 {
      DecimalDenotes(n / 10);
      assert s[..|s| - 1] == Decimal(n / 10);
    } else {
      assert s[..0] == "";
    }
  }

  lemma {:induction false} DecimalInjective(a: nat, b: nat)
    requires Decimal(a) == Decimal(b)
    ensures a == b
  {
    DecimalLength(a);
    DecimalLength(b);
    var n := |Decimal(a)| - 1;
    assert Decimal(a)[n] == Digit(a % 10) && Decimal(b)[n] == Digit(b % 10);
    if a >= 10 {
      assert Decimal(a)[..n] == Decimal(a / 10) && Decimal(b)[..n] == Decimal(b / 10);
      DecimalInjective(a / 10, b / 10);
    }
  }
}
