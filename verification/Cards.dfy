/** The card catalogue (packages/shared/src/cards.ts). */
module Cards {
  import opened MatchTypes

  datatype Tier = Common | Rare | Epic

  datatype Template =
    | FixedEffect(effect: Effect)
    | OptionDisableTemplate(count: nat, durationMs: int)
    | HintRevealTemplate(count: nat)
    | ShieldTemplate(expiresAfterRoundOffset: int)
    | HandDestroyTemplate(count: nat)

  predicate InCatalog(c: CardId) {
    match c
    case CB(n) => 1 <= n <= 8
    case TN(n) => 1 <= n <= 10
  }

  function ClassOf(c: CardId): ClassId {
    if c.CB? then Attack else Defense
  }

  function TierOf(c: CardId): Tier {
    match c
    case CB(n) => if n == 8 then Epic else if n == 4 || n == 5 then Rare else Common
    case TN(n) => if n == 10 then Epic else if n == 4 || n == 7 || n == 9 then Rare else Common
  }

  function TemplateOf(c: CardId): Template
    requires InCatalog(c)
  {
    match c
    case CB(1) => FixedEffect(TimerModify(-5000, 1))
    case CB(2) => FixedEffect(DelayRender(3000, 1))
    case CB(3) => HandDestroyTemplate(1)
    case CB(4) => FixedEffect(OptionLock(2000))
    case CB(5) => FixedEffect(VisualOverlay("BRAIN_FOG", 5000))
    case CB(6) => FixedEffect(OptionFake([1], 8000))
    case CB(7) => FixedEffect(SemanticFlip(10000))
    case CB(8) => FixedEffect(DelayRender(2000, 3))
    case TN(1) => OptionDisableTemplate(2, 20000)
    case TN(2) => FixedEffect(ScoreMult(2.0))
    case TN(3) => HintRevealTemplate(1)
    case TN(4) => ShieldTemplate(1)
    case TN(6) => FixedEffect(SecondChance)
    case TN(7) => FixedEffect(VisualOverlay("DEEP_READ", 5000))
    case TN(9) => FixedEffect(ScoreMult(1.5))
    case TN(10) => OptionDisableTemplate(1, 20000)
    case _ => FixedEffect(QuestionReplay(5000))
  }

  /** Targets of the card's effect, where its template names a count. */
  function TargetCount(c: CardId): nat
    requires InCatalog(c)
  {
    match TemplateOf(c)
    case FixedEffect(TimerModify(_, n)) => n
    case FixedEffect(DelayRender(_, n)) => n
    case _ => 1
  }

  predicate IsAoeCard(c: CardId)
    requires InCatalog(c)
  {
    TargetCount(c) > 1
  }

  /** `compareCardId(a, b) <= 0`: prefix first, then the number, not its digits. */
  function CanonicalOrder(): (CardId, CardId) -> bool {
    (a: CardId, b: CardId) =>
      match (a, b)
      case (CB(m), CB(n)) => m <= n
      case (TN(m), TN(n)) => m <= n
      case (CB(_), TN(_)) => true
      case (TN(_), CB(_)) => false
  }

  function ClassPool(c: ClassId): (pool: seq<CardId>)
    ensures forall x :: x in pool ==> InCatalog(x) && ClassOf(x) == c
    ensures forall i, j :: 0 <= i < j < |pool| ==> pool[i] != pool[j]
    ensures |pool| == if c == Attack then 8 else 10
  {
    match c
    case Attack => [CB(1), CB(2), CB(3), CB(4), CB(5), CB(6), CB(7), CB(8)]
    case Defense => [TN(1), TN(2), TN(3), TN(4), TN(5), TN(6), TN(7), TN(8), TN(9), TN(10)]
  }
}
