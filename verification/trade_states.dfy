/** The two state enumerations a buyer-side trade carries.

    The buyer's process-state enumeration is an ordered Java enum whose
    declaration is not part of this model. It is represented here by the
    constants the trade logic names explicitly, plus `Milestone(name)` for
    every other constant, and its declaration order is a parameter: a
    `Declaration` lists the constants in the order they are declared, and the
    ordinal of a constant is its index in that list. */
module TradeStates {
  import opened Collections

  datatype ProcessState =
    | Undefined
    | DepositPublished
    | DepositConfirmed
    | Timeout
    | Fault
    | Milestone(name: string)

  /** The coarse business status shared by every trade role. */
  datatype LifeCycleState = Preparation | Pending | Failed | Completed

  /** A terminal life-cycle state: reaching one releases the trade protocol. */
  predicate IsTerminal(s: LifeCycleState) {
    s == Failed || s == Completed
  }

  /** The two process states that abandon a trade. */
  predicate IsFailure(s: ProcessState) {
    s == Timeout || s == Fault
  }

  /** The enum's constants in declaration order. */
  type Declaration = seq<ProcessState>

  /** A Java enum declares each constant once, and the buyer enum declares at
      least the constants the trade logic refers to by name. */
  predicate IsDeclaration(d: Declaration) {
    && Distinct(d)
    && Undefined in d
    && DepositPublished in d
    && DepositConfirmed in d
    && Timeout in d
    && Fault in d
  }

  /** `ProcessState.ordinal()`: the position of `s` in the declaration. */
  function Ordinal(d: Declaration, s: ProcessState): (k: nat)
    requires s in d
    ensures k < |d| && d[k] == s
    ensures forall i :: 0 <= i < k ==> d[i] != s
  {
    if d[0] == s then 0 else 1 + Ordinal(d[1..], s)
  }

  /** In a well-formed declaration distinct constants have distinct ordinals,
      so comparing ordinals compares constants. */
  lemma OrdinalInjective(d: Declaration, a: ProcessState, b: ProcessState)
    requires IsDeclaration(d)
    requires a in d && b in d
    ensures Ordinal(d, a) == Ordinal(d, b) <==> a == b
  {
  }

  /** The ordinal is the ONLY index at which a constant is declared. */
  lemma OrdinalUnique(d: Declaration, s: ProcessState, i: nat)
    requires IsDeclaration(d)
    requires i < |d| && d[i] == s
    ensures Ordinal(d, s) == i
  {
  }

  /** The ordering the deposit milestones are declared in: the trade starts
      undefined, the deposit is published, then confirmed. Stated as a
      precondition wherever a property depends on it. */
  predicate DepositOrder(d: Declaration)
    requires IsDeclaration(d)
  {
    Ordinal(d, Undefined) < Ordinal(d, DepositPublished) < Ordinal(d, DepositConfirmed)
  }
}
