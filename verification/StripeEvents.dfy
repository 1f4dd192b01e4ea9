/**
 apps/web/lib/billing-core.ts: what a Stripe event selects, and what it writes to the table
 it then finds. `StripeRuns` interleaves the two.
 */
module StripeEvents {
  import opened Options
  import opened Subscriptions
  import C = Credits

  datatype Kind = CheckoutCompleted | SubscriptionChanged | SubscriptionDeleted | PaymentFailed | Unsupported

  /** The fields the handlers read; metadata and prices are already looked up. */
  datatype StripeObject = StripeObject(
    id: Option<string>, customer: Option<string>, subscription: Option<string>,
    status: Option<string>, periodEndSeconds: Option<int>, cancelAtPeriodEnd: Option<bool>,
    team: Option<Team>, metadataPlan: Option<Plan>, pricePlan: Option<Plan>, interval: Option<Interval>)

  datatype Event = Event(id: string, kind: Kind, data: StripeObject)

  type Subs = map<Team, Sub>

  function ToDate(seconds: Option<int>): Option<Time> {
    if seconds.Some? then Some(seconds.value * 1000) else None
  }

  function Coalesce<T>(a: Option<T>, b: Option<T>): Option<T> {
    if a.Some? then a else b
  }

  function StatusOf(status: Option<string>): SubStatus {
    if status.None? then PastDue
    else if status.value == "active" then Active
    else if status.value == "trialing" then Trialing
    else if status.value in ["canceled", "incomplete", "incomplete_expired", "unpaid", "paused"] then Canceled
    else PastDue
  }

  // ----- the table and its unique indexes

  predicate UniqueCustomers(subs: Subs) {
    forall t, u :: t in subs && u in subs && t != u && subs[t].customer.Some? ==> subs[t].customer != subs[u].customer
  }

  predicate UniqueSubscriptions(subs: Subs) {
    forall t, u :: t in subs && u in subs && t != u && subs[t].subscription.Some? ==> subs[t].subscription != subs[u].subscription
  }

  predicate Unique(subs: Subs) {
    UniqueCustomers(subs) && UniqueSubscriptions(subs)
  }

  /** A write that breaks a unique index fails. */
  function Checked(subs: Subs): Option<Subs> {
    if Unique(subs) then Some(subs) else None
  }

  // ----- the writes; None is an error

  /** The row inserted, or the columns set on conflict. */
  function CheckedOutRow(subs: Subs, o: StripeObject): Sub
    requires o.team.Some?
  {
    var plan := if o.metadataPlan.Some? then o.metadataPlan.value else Pro;
    var team := o.team.value;
    if team !in subs then Sub(plan, Active, ToDate(o.periodEndSeconds), 0, o.customer, o.subscription, false, Month)
    else
      subs[team].(
        plan := plan, status := Active,
        customer := Coalesce(o.customer, subs[team].customer),
        subscription := Coalesce(o.subscription, subs[team].subscription),
        periodEnd := Coalesce(ToDate(o.periodEndSeconds), subs[team].periodEnd))
  }

  function WriteCheckout(subs: Subs, o: StripeObject): Option<Subs> {
    if o.team.None? || o.subscription.None? || o.subscription == Some("") then Some(subs)
    else Checked(subs[o.team.value := CheckedOutRow(subs, o)])
  }

  predicate Matches(sub: Sub, o: StripeObject, deletion: bool) {
    || (o.id.Some? && sub.subscription == o.id)
    || (!deletion && o.customer.Some? && sub.customer == o.customer)
  }

  /** The answer of `select team_id ... limit 1`. */
  predicate IsFound(subs: Subs, o: StripeObject, deletion: bool, found: Option<Team>) {
    match found
    case None => forall t :: t in subs ==> !Matches(subs[t], o, deletion)
    case Some(team) => team in subs && Matches(subs[team], o, deletion)
  }

  /** The row of a deletion, whatever its subscription is by now. */
  function FreedRow(row: Sub): Sub {
    row.(plan := Free, status := Active, cancelAtPeriodEnd := false, interval := Month, subscription := None, periodEnd := None)
  }

  /** `update subscriptions ... where team_id = $1` */
  function WriteDeletion(subs: Subs, found: Option<Team>): Subs {
    if found.None? || found.value !in subs then subs else subs[found.value := FreedRow(subs[found.value])]
  }

  function ChangedRow(row: Sub, o: StripeObject): Sub {
    row.(
      status := StatusOf(o.status),
      periodEnd := Coalesce(ToDate(o.periodEndSeconds), row.periodEnd),
      customer := Coalesce(o.customer, row.customer),
      subscription := Coalesce(o.id, row.subscription),
      cancelAtPeriodEnd := if o.cancelAtPeriodEnd.Some? then o.cancelAtPeriodEnd.value else row.cancelAtPeriodEnd,
      plan := if o.pricePlan.Some? then o.pricePlan.value else row.plan,
      interval := if o.interval.Some? then o.interval.value else row.interval)
  }

  function WriteChange(subs: Subs, o: StripeObject, found: Option<Team>): Option<Subs> {
    if found.None? || found.value !in subs then Some(subs)
    else Checked(subs[found.value := ChangedRow(subs[found.value], o)])
  }

  /** What the select of an event may answer on a table. */
  predicate Selected(subs: Subs, e: Event, found: Option<Team>) {
    match e.kind
    case SubscriptionChanged => IsFound(subs, e.data, false, found)
    case SubscriptionDeleted => IsFound(subs, e.data, true, found)
    case _ => true
  }

  /** What an event writes to a table, given what it selected, perhaps on an earlier one. */
  function Write(subs: Subs, e: Event, found: Option<Team>): Option<Subs> {
    match e.kind
    case CheckoutCompleted => WriteCheckout(subs, e.data)
    case SubscriptionChanged => WriteChange(subs, e.data, found)
    case SubscriptionDeleted => Some(WriteDeletion(subs, found))
    case _ => Some(subs)
  }

  // ----- what a write does to the rows of others

  lemma WriteIsUnique(subs: Subs, e: Event, found: Option<Team>)
    requires Unique(subs) && Write(subs, e, found).Some?
    ensures Unique(Write(subs, e, found).value)
  {
  }

  /** Events never write `credits_used`: they are billing steps of the credit books. */
  lemma EventsKeepCredits(b: C.Books, e: Event, found: Option<Team>)
    requires Write(b.subs, e, found).Some?
    ensures var subs' := Write(b.subs, e, found).value;
            subs' == b.subs || exists team :: C.BillingStep(b, b.(subs := subs'), team)
  {
    var subs' := Write(b.subs, e, found).value;
    if subs' != b.subs {
      var team := if e.kind.CheckoutCompleted? then e.data.team.value else found.value;
      assert C.BillingStep(b, b.(subs := subs'), team);
    }
  }

  /** The row holds a subscription other than that of the event. */
  predicate HoldsAnother(row: Sub, o: StripeObject) {
    row.subscription.Some? && row.subscription != o.id
  }

  /**
   A deletion leaves the rows of other subscriptions alone if and only if the row it
   selected does not hold another subscription by the time it is written.
   */
  lemma DeletionSparesOthersIff(subs: Subs, o: StripeObject, found: Option<Team>)
    ensures (forall t :: t in subs && HoldsAnother(subs[t], o) ==> WriteDeletion(subs, found)[t] == subs[t])
            <==> !(found.Some? && found.value in subs && HoldsAnother(subs[found.value], o))
  {
    if found.Some? && found.value in subs {
      assert WriteDeletion(subs, found)[found.value].subscription == None;
    }
  }

  /**
   On the table it selected from, a deletion resets the row of exactly that subscription
   to a clean free plan and no other row.
   */
  lemma DeletionIsPrecise(subs: Subs, o: StripeObject, found: Option<Team>, team: Team)
    requires Unique(subs) && IsFound(subs, o, true, found) && team in subs
    ensures var after := WriteDeletion(subs, found);
            && after.Keys == subs.Keys
            && (if o.id.Some? && subs[team].subscription == o.id then
                  after[team] == Sub(Free, Active, None, subs[team].used, subs[team].customer, None, false, Month)
                else after[team] == subs[team])
  {
  }

  /** The row has every value the object carries; a missing status counts as past due. */
  predicate Shows(row: Sub, o: StripeObject) {
    && row.status == StatusOf(o.status)
    && (o.id.Some? ==> row.subscription == o.id)
    && (o.customer.Some? ==> row.customer == o.customer)
    && (o.periodEndSeconds.Some? ==> row.periodEnd == ToDate(o.periodEndSeconds))
    && (o.cancelAtPeriodEnd.Some? ==> row.cancelAtPeriodEnd == o.cancelAtPeriodEnd.value)
    && (o.pricePlan.Some? ==> row.plan == o.pricePlan.value)
    && (o.interval.Some? ==> row.interval == o.interval.value)
  }

  /**
   A change that is written leaves the subscriptions of all rows alone but its own if and
   only if the row it selected does not hold another one, and leaves all of those rows
   alone if and only if that row, when it does, has every value the event carries. Nothing
   in the query sees to that: a row is also selected by its customer.
   */
  lemma ChangeSparesOthersIff(subs: Subs, o: StripeObject, found: Option<Team>)
    requires WriteChange(subs, o, found).Some?
    ensures var after := WriteChange(subs, o, found).value;
            (forall t :: t in subs && HoldsAnother(subs[t], o) ==> after[t].subscription == subs[t].subscription)
            <==> !(found.Some? && found.value in subs && o.id.Some? && HoldsAnother(subs[found.value], o))
    ensures var after := WriteChange(subs, o, found).value;
            (forall t :: t in subs && HoldsAnother(subs[t], o) ==> after[t] == subs[t])
            <==> (found.Some? && found.value in subs && HoldsAnother(subs[found.value], o) ==> Shows(subs[found.value], o))
  {
    if found.Some? && found.value in subs {
      assert WriteChange(subs, o, found).value[found.value] == ChangedRow(subs[found.value], o);
    }
  }

  /**
   A deletion takes the period end away and keeps the credits used, so the free plan it
   leaves behind is never renewed: five credits less those, for all time to come.
   */
  lemma DeletedTeamIsNeverRenewed(b: C.Books, team: Team, times: seq<Time>)
    requires team in b.subs
    ensures var after := b.(subs := WriteDeletion(b.subs, Some(team)));
            var left := if b.subs[team].used < 5 then 5 - b.subs[team].used else 0;
            C.Granted(after, team, times) == if |times| <= left then |times| else left
  {
    var after := b.(subs := WriteDeletion(b.subs, Some(team)));
    assert after.subs[team] == FreedRow(b.subs[team]);
    C.GrantsWhatIsLeft(after, team, times);
    hide WriteDeletion, C.Granted;
  }

  // ----- what a write puts into its row

  /**
   A checkout that names its team and subscription, and is written, puts the paid plan
   into the row of the team, new or old, and touches no other.
   */
  lemma CheckoutIsExact(subs: Subs, o: StripeObject)
    requires WriteCheckout(subs, o).Some? && o.team.Some? && o.subscription.Some? && o.subscription != Some("")
    ensures var team, after := o.team.value, WriteCheckout(subs, o).value;
            var plan := if o.metadataPlan.Some? then o.metadataPlan.value else Pro;
            var end := if o.periodEndSeconds.Some? then Some(o.periodEndSeconds.value * 1000) else None;
            && after.Keys == subs.Keys + {team}
            && (forall t :: t in subs && t != team ==> after[t] == subs[t])
            && (team !in subs ==> after[team] == Sub(plan, Active, end, 0, o.customer, o.subscription, false, Month))
            && (team in subs ==> after[team] == Sub(
                  plan, Active, if end.Some? then end else subs[team].periodEnd, subs[team].used,
                  if o.customer.Some? then o.customer else subs[team].customer, o.subscription,
                  subs[team].cancelAtPeriodEnd, subs[team].interval))
  {
  }

  /** A checkout without a team or a subscription, like an event of no interest, writes nothing. */
  lemma NothingToCheckOut(subs: Subs, o: StripeObject)
    requires o.team.None? || o.subscription.None? || o.subscription == Some("")
    ensures WriteCheckout(subs, o) == Some(subs)
  {
  }

  /**
   A change that is written puts the status of Stripe, as the code maps it, and every value
   the event carries into the row it selected, and touches no other.
   */
  lemma ChangeIsExact(subs: Subs, o: StripeObject, team: Team)
    requires team in subs && WriteChange(subs, o, Some(team)).Some?
    ensures var before, after := subs[team], WriteChange(subs, o, Some(team)).value;
            && after.Keys == subs.Keys
            && (forall t :: t in subs && t != team ==> after[t] == subs[t])
            && (after[team].status == Active <==> o.status == Some("active"))
            && (after[team].status == Trialing <==> o.status == Some("trialing"))
            && (after[team].status == Canceled <==>
                  o.status == Some("canceled") || o.status == Some("incomplete") || o.status == Some("incomplete_expired")
                  || o.status == Some("unpaid") || o.status == Some("paused"))
            && after[team] == Sub(
                 if o.pricePlan.Some? then o.pricePlan.value else before.plan,
                 after[team].status,
                 if o.periodEndSeconds.Some? then Some(o.periodEndSeconds.value * 1000) else before.periodEnd,
                 before.used,
                 if o.customer.Some? then o.customer else before.customer,
                 if o.id.Some? then o.id else before.subscription,
                 if o.cancelAtPeriodEnd.Some? then o.cancelAtPeriodEnd.value else before.cancelAtPeriodEnd,
                 if o.interval.Some? then o.interval.value else before.interval)
  {
  }

  /** A change writes to a row that has its subscription or its customer, if there is one, and otherwise nothing. */
  lemma ChangeFindsItsRow(subs: Subs, o: StripeObject, found: Option<Team>)
    requires IsFound(subs, o, false, found)
    ensures found.None? <==> forall t :: t in subs ==>
              (o.id.Some? ==> subs[t].subscription != o.id) && (o.customer.Some? ==> subs[t].customer != o.customer)
    ensures found.None? ==> WriteChange(subs, o, found) == Some(subs)
    ensures found.Some? ==> (
              && found.value in subs
              && ((o.id.Some? && subs[found.value].subscription == o.id)
                  || (o.customer.Some? && subs[found.value].customer == o.customer)))
  {
  }

  // ----- when a write fails

  /** A row can be written when no other row has its customer or its subscription. */
  lemma RowFits(subs: Subs, team: Team, row: Sub)
    requires Unique(subs)
    requires forall u :: u in subs && u != team ==>
               && (row.customer.Some? ==> subs[u].customer != row.customer)
               && (row.subscription.Some? ==> subs[u].subscription != row.subscription)
    ensures Unique(subs[team := row])
  {
  }

  /** Another row than the team's has the subscription or the customer. */
  ghost predicate TakenElsewhere(subs: Subs, team: Team, subscription: Option<string>, customer: Option<string>) {
    exists u :: u in subs && u != team
      && ((subscription.Some? && subs[u].subscription == subscription) || (customer.Some? && subs[u].customer == customer))
  }

  lemma TakenBreaksIndex(subs: Subs, team: Team, row: Sub)
    requires TakenElsewhere(subs, team, row.subscription, row.customer)
    ensures !Unique(subs[team := row])
  {
    var u :| u in subs && u != team
      && ((row.subscription.Some? && subs[u].subscription == row.subscription)
          || (row.customer.Some? && subs[u].customer == row.customer));
    var after := subs[team := row];
    assert after[u] == subs[u] && after[team] == row;
    assert after[u].subscription == after[team].subscription || after[u].customer == after[team].customer;
  }

  /**
   A change fails if and only if, when it is written, another row than the selected one has
   its subscription or its customer; what the table was at the select does not matter.
   */
  lemma ChangeFailsIffTaken(subs: Subs, o: StripeObject, team: Team)
    requires Unique(subs) && team in subs
    ensures WriteChange(subs, o, Some(team)).None? <==> TakenElsewhere(subs, team, o.id, o.customer)
  {
    var row := ChangedRow(subs[team], o);
    if u :| u in subs && u != team
            && ((o.id.Some? && subs[u].subscription == o.id) || (o.customer.Some? && subs[u].customer == o.customer)) {
      assert TakenElsewhere(subs, team, row.subscription, row.customer);
      TakenBreaksIndex(subs, team, row);
    } else {
      RowFits(subs, team, row);
    }
  }

  /** Subscription and customer of a change event are on different rows. */
  ghost predicate Split(subs: Subs, o: StripeObject) {
    exists t, u :: t in subs && u in subs && t != u
      && o.id.Some? && subs[t].subscription == o.id && o.customer.Some? && subs[u].customer == o.customer
  }

  /** On the table it selected from, that is the only way a change event can fail. */
  lemma ChangeFailsIffSplit(subs: Subs, o: StripeObject, found: Option<Team>)
    requires Unique(subs) && IsFound(subs, o, false, found)
    ensures WriteChange(subs, o, found).None? <==> Split(subs, o)
  {
    if found.Some? {
      ChangeFailsIffTaken(subs, o, found.value);
      if u :| u in subs && u != found.value
              && ((o.id.Some? && subs[u].subscription == o.id) || (o.customer.Some? && subs[u].customer == o.customer)) {
        assert Split(subs, o);
      }
      if t, u :| t in subs && u in subs && t != u
                 && o.id.Some? && subs[t].subscription == o.id && o.customer.Some? && subs[u].customer == o.customer {
        assert t != found.value || u != found.value;
      }
      hide WriteChange;
    }
  }

  /** A checkout selects nothing; it fails if and only if another team's row has its subscription or its customer. */
  lemma CheckoutFailsIffTaken(subs: Subs, o: StripeObject)
    requires Unique(subs)
    ensures WriteCheckout(subs, o).None? <==>
              && o.team.Some? && o.subscription.Some? && o.subscription != Some("")
              && TakenElsewhere(subs, o.team.value, o.subscription, o.customer)
  {
    if o.team.Some? && o.subscription.Some? && o.subscription != Some("") {
      var team, row := o.team.value, CheckedOutRow(subs, o);
      if u :| u in subs && u != team
              && ((o.subscription.Some? && subs[u].subscription == o.subscription) || (o.customer.Some? && subs[u].customer == o.customer)) {
        assert TakenElsewhere(subs, team, row.subscription, row.customer);
        TakenBreaksIndex(subs, team, row);
      } else {
        RowFits(subs, team, row);
      }
    }
  }

  /** While what was selected still matches, the unordered `limit 1` never matters: of two matches neither can be written. */
  lemma ChoiceIsIrrelevant(subs: Subs, e: Event, f1: Option<Team>, f2: Option<Team>)
    requires Unique(subs) && Selected(subs, e, f1) && Selected(subs, e, f2)
    ensures Write(subs, e, f1) == Write(subs, e, f2)
  {
    assert e.kind.SubscriptionDeleted? ==> f1 == f2;
    if e.kind.SubscriptionChanged? && f1 != f2 {
      ChangeFailsIffTaken(subs, e.data, f1.value);
      ChangeFailsIffTaken(subs, e.data, f2.value);
      assert Matches(subs[f1.value], e.data, false) && Matches(subs[f2.value], e.data, false);
      hide WriteChange;
    }
  }

  // ----- select and write on one table

  lemma SelectAnswers(subs: Subs, e: Event)
    ensures exists found :: Selected(subs, e, found)
  {
    var deletion := e.kind.SubscriptionDeleted?;
    if t :| t in subs && Matches(subs[t], e.data, deletion) {
      assert Selected(subs, e, Some(t));
    } else {
      assert Selected(subs, e, None);
    }
  }

  /** What an event does when nothing comes between its select and its writes. */
  ghost function Process(subs: Subs, e: Event): Option<Subs> {
    SelectAnswers(subs, e);
    var found :| Selected(subs, e, found);
    Write(subs, e, found)
  }

  /** Neither the answer at hand nor a new one changes the table. */
  ghost predicate Harmless(subs: Subs, e: Event, found: Option<Team>) {
    Write(subs, e, found) == Some(subs) && Process(subs, e) == Some(subs)
  }

  /** A stale answer that is written leaves the table a new answer would leave if and only if neither changes anything. */
  lemma StaleAgreesIff(subs: Subs, e: Event, found: Option<Team>)
    requires Unique(subs) && !Selected(subs, e, found) && Write(subs, e, found).Some?
    ensures Write(subs, e, found) == Process(subs, e) <==> Harmless(subs, e, found)
  {
    SelectAnswers(subs, e);
    var g :| Selected(subs, e, g) && Process(subs, e) == Write(subs, e, g);
    if Write(subs, e, found) == Write(subs, e, g) {
      OtherRowsOnly(subs, e, found, g);
    }
  }

  /** Two answers that are written to the same table each leave the row of the other alone. */
  lemma OtherRowsOnly(subs: Subs, e: Event, found: Option<Team>, g: Option<Team>)
    requires found != g && (e.kind.SubscriptionChanged? || e.kind.SubscriptionDeleted?)
    requires Write(subs, e, found).Some? && Write(subs, e, found) == Write(subs, e, g)
    ensures Write(subs, e, found) == Some(subs)
  {
    var after := Write(subs, e, found).value;
    assert after.Keys == subs.Keys;
    forall t | t in subs
      ensures after[t] == subs[t]
    {
      assert Some(t) != found || Some(t) != g;
    }
    assert after == subs;
  }

  /** Once the row selected by subscription has lost it, the choice decides whether the event fails. */
  lemma StaleChoiceMatters(subs: Subs, o: StripeObject, bySubscription: Team, byCustomer: Team)
    requires Unique(subs) && bySubscription in subs && byCustomer in subs && bySubscription != byCustomer
    requires o.id.Some? && o.customer.Some? && subs[byCustomer].customer == o.customer
    requires forall t :: t in subs ==> subs[t].subscription != o.id
    ensures WriteChange(subs, o, Some(bySubscription)).None? && WriteChange(subs, o, Some(byCustomer)).Some?
  {
    ChangeFailsIffTaken(subs, o, bySubscription);
    ChangeFailsIffTaken(subs, o, byCustomer);
    hide WriteChange;
  }

  /** Only two columns are indexed. */
  lemma UniqueColumns(a: Subs, b: Subs)
    requires a.Keys == b.Keys
    requires forall t :: t in a ==> a[t].customer == b[t].customer && a[t].subscription == b[t].subscription
    ensures Unique(a) == Unique(b)
  {
  }
}
