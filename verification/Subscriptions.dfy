/** The row a team has in `subscriptions`, shared by the credit ledger and the Stripe handlers. */
module Subscriptions {
  import opened Options

  type Team = nat
  /** Milliseconds. */
  type Time = int

  datatype Plan = Free | Pro | Max
  datatype SubStatus = Active | Trialing | PastDue | Canceled
  datatype Interval = Month | Year

  datatype Sub = Sub(
    plan: Plan, status: SubStatus, periodEnd: Option<Time>, used: nat,
    customer: Option<string>, subscription: Option<string>,
    cancelAtPeriodEnd: bool, interval: Interval)

  const THIRTY_DAYS: Time := 30 * 24 * 3_600_000

  /** packages/shared/src/plans.ts */
  function CreditsPerPeriod(plan: Plan): nat {
    match plan
    case Free => 5
    case Pro => 500
    case Max => 2000
  }

  /** The row `ensureSubscriptionRow` inserts. */
  function FreeRow(now: Time): Sub {
    Sub(Free, Active, Some(now + THIRTY_DAYS), 0, None, None, false, Month)
  }
}
