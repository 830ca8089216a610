/** `GET /api/stats`: the dashboard's four numbers. */
module Stats {
  import opened Store
  import opened Lists

  datatype DashboardStats = DashboardStats(totalEmployees: nat, cardsGenerated: nat, templatesActive: nat, pendingCards: int)

  /** `where: { cardGenerated: true, isActive: true }`. */
  predicate HasActiveCard(e: Employee) {
    e.cardGenerated && e.isActive
  }

  /** An active employee still waiting for a card. */
  predicate AwaitsCard(e: Employee) {
    e.isActive && !e.cardGenerated
  }

  /** `where: { isActive: true }` on templates, of any type. */
  predicate ActiveTemplate(t: Template) {
    t.isActive
  }

  /** The three counts and `pendingCards = totalEmployees - cardsGenerated`.
      Generated cards are counted among active employees only, so the
      pending number is never negative. */
  function GetStats(employees: seq<Employee>, templates: seq<Template>): (s: DashboardStats)
    ensures s.totalEmployees == |Filter(employees, Active)|
    ensures s.cardsGenerated == |Filter(employees, HasActiveCard)|
    ensures s.templatesActive == |Filter(templates, ActiveTemplate)|
    ensures 0 <= s.pendingCards == s.totalEmployees - s.cardsGenerated
  {
    var total := |Filter(employees, Active)|;
    var generated := |Filter(employees, HasActiveCard)|;
    FilterMonotone(employees, HasActiveCard, Active);
    DashboardStats(total, generated, |Filter(templates, ActiveTemplate)|, total - generated)
  }

  /** The pending number is the number of active employees without a card. */
  lemma {:induction false} PendingCardsAreActiveWithoutCard(employees: seq<Employee>, templates: seq<Template>)
    ensures GetStats(employees, templates).pendingCards == |Filter(employees, AwaitsCard)|
  {
    FilterPartition(employees, Active, HasActiveCard, AwaitsCard);
  }
}
