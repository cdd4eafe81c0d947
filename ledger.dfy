/** The contribution ledger: a deposit asks the payment processor for a checkout
    session carrying (user, group) metadata, the processor's webhook records one
    `group_payments` row per completed session, and two read handlers aggregate
    the rows of a group, as a total and per user. */
module Ledger {
  import opened Tables
  import Profiles

  // ---------------------------------------------------------------- amounts

  /** JavaScript's `Math.round`: the nearest integer, halves rounded up. */
  function JsRound(x: real): (r: int)
    ensures x - 0.5 < r as real <= x + 0.5
  {
    (x + 0.5).Floor
  }

  /** `Math.round(amount * 100)`: a dollar amount in cents. */
  function Cents(amount: real): (r: int)
    ensures amount * 100.0 - 0.5 < r as real <= amount * 100.0 + 0.5
  {
    JsRound(amount * 100.0)
  }

  /** `amount_total / 100`: cents back in dollars. */
  function Dollars(cents: int): (r: real)
    ensures r * 100.0 == cents as real
  {
    cents as real / 100.0
  }

  /** Converting to cents and back moves an amount by at most half a cent. */
  lemma CentsRoundTrip(amount: real)
    ensures amount - 0.005 < Dollars(Cents(amount)) <= amount + 0.005
  {
    var c := Cents(amount);
    assert amount * 100.0 - 0.5 < c as real <= amount * 100.0 + 0.5;
  }

  /** An amount given in whole cents converts exactly, both ways. */
  lemma ExactCents(cents: int)
    ensures Cents(Dollars(cents)) == cents
    ensures Dollars(Cents(Dollars(cents))) == Dollars(cents)
  {
    assert Dollars(cents) * 100.0 == cents as real;
    var r := JsRound(cents as real);
    assert cents as real - 0.5 < r as real <= cents as real + 0.5;
  }

  /** A positive amount never becomes a negative number of cents; it becomes
      zero cents when it is under half a cent. */
  lemma PositiveAmountCents(amount: real)
    requires amount > 0.0
    ensures Cents(amount) >= 0
    ensures Cents(amount) == 0 <==> amount < 0.005
  {
    var c := Cents(amount);
    assert amount * 100.0 - 0.5 < c as real <= amount * 100.0 + 0.5;
  }

  // ---------------------------------------------------------------- deposit

  /** The checkout session the deposit handler asks the processor for: one
      line item of `unitAmount` cents, with the depositor and the group as
      metadata. */
  datatype CheckoutRequest = CheckoutRequest(unitAmount: int, quantity: nat, currency: string, userId: Id, groupId: Id)

  /** The deposit handler's answer, its redirect url, and the checkout
      sessions it asked the processor to create. */
  datatype DepositResult = DepositResult(reply: Reply, url: Option<string>, sessions: seq<CheckoutRequest>)

  /** `!amount || amount <= 0` fails: the amount is present, non-zero and positive. */
  predicate ValidAmount(amount: Option<real>) {
    amount.Some? && amount.value > 0.0
  }

  /** POST /groups/:groupId/deposit for an authenticated `userId`. `processor`
      is what the payment processor answers to the session request: the hosted
      page's url, or an error. The group id is not checked. */
  function Deposit(groupId: Id, userId: Id, amount: Option<real>, processor: Result<string, string>): (r: DepositResult)
    ensures r.reply == Reply(400, "Invalid amount") <==> !ValidAmount(amount)
    ensures !ValidAmount(amount) ==> r.sessions == [] && r.url == None
    ensures ValidAmount(amount) ==>
      |r.sessions| == 1 && r.sessions[0].userId == userId && r.sessions[0].groupId == groupId &&
      r.sessions[0].quantity == 1 && r.sessions[0].currency == "usd" &&
      amount.value * 100.0 - 0.5 < r.sessions[0].unitAmount as real <= amount.value * 100.0 + 0.5
    ensures r.url.Some? <==> ValidAmount(amount) && processor.Ok?
    ensures r.url.Some? ==> r.reply == Reply(200, processor.value) && r.url.value == processor.value
    ensures ValidAmount(amount) && processor.Err? ==> r.reply == Reply(500, "Failed to create checkout session")
  {
    if !ValidAmount(amount) then
      DepositResult(Reply(400, "Invalid amount"), None, [])
    else
      var request := CheckoutRequest(Cents(amount.value), 1, "usd", userId, groupId);
      match processor
      case Ok(url) => DepositResult(Reply(200, url), Some(url), [request])
      case Err(_) => DepositResult(Reply(500, "Failed to create checkout session"), None, [request])
  }

  // ---------------------------------------------------------------- webhook

  const CheckoutCompleted: string := "checkout.session.completed"

  /** The part of a checkout session the webhook reads: the metadata set at
      deposit time and the amount charged, in cents. */
  datatype CheckoutSession = CheckoutSession(groupId: Id, userId: Id, amountTotal: int)

  /** A processor event whose signature has been verified. */
  datatype Event = Event(kind: string, session: CheckoutSession)

  /** The event the processor sends once the session created for `request` is
      paid: it echoes the metadata, and the total is unit amount times quantity. */
  function CompletedEvent(request: CheckoutRequest): Event {
    Event(CheckoutCompleted, CheckoutSession(request.groupId, request.userId, request.unitAmount * request.quantity))
  }

  /** The `group_payments` row recorded for a completed session. */
  function PaymentOf(session: CheckoutSession): Payment {
    Payment(session.groupId, session.userId, Dollars(session.amountTotal))
  }

  /** The ledger after a verified event: a completed checkout appends its row
      unless the insert fails; every other kind is ignored. Nothing checks
      whether the session was recorded before. */
  function Reconcile(payments: seq<Payment>, event: Event, insertError: Option<DbError>): (r: seq<Payment>)
    ensures |r| == |payments| + (if event.kind == CheckoutCompleted && insertError.None? then 1 else 0)
    ensures r[..|payments|] == payments
    ensures |r| > |payments| ==> r[|payments|] == Payment(event.session.groupId, event.session.userId, Dollars(event.session.amountTotal))
  {
    if event.kind == CheckoutCompleted && insertError.None? then payments + [PaymentOf(event.session)]
    else payments
  }

  // ---------------------------------------------------------------- totals

  /** Rows of one group: the `.eq('group_id', groupId)` filter. */
  function PaymentsFor(payments: seq<Payment>, groupId: Id): (r: seq<Payment>)
    ensures |r| <= |payments|
    ensures forall p :: p in r <==> p in payments && p.groupId == groupId
    ensures (forall p :: p in payments ==> p.groupId != groupId) ==> r == []
  {
    if payments == [] then []
    else (if payments[0].groupId == groupId then [payments[0]] else []) + PaymentsFor(payments[1..], groupId)
  }

  /** Every row records a non-negative amount, as settled checkouts do. */
  predicate NonNegative(rows: seq<Payment>) {
    rows == [] || (NonNegative(rows[..|rows| - 1]) && rows[|rows| - 1].amount >= 0.0)
  }

  /** Rows whose every amount is non-negative satisfy NonNegative. */
  lemma {:induction false} NonNegativeRows(rows: seq<Payment>)
    requires forall p :: p in rows ==> p.amount >= 0.0
    ensures NonNegative(rows)
  {
    if rows != [] {
      var init := rows[..|rows| - 1];
      assert forall p :: p in init ==> p in rows;
      NonNegativeRows(init);
      assert rows[|rows| - 1] in rows;
    }
  }

  /** `data.reduce((sum, payment) => sum + payment.amount, 0)`, a left fold. */
  function SumAmounts(rows: seq<Payment>): (r: real)
    ensures NonNegative(rows) ==> r >= 0.0
  {
    if rows == [] then 0.0 else SumAmounts(rows[..|rows| - 1]) + rows[|rows| - 1].amount
  }

  /** What GET /groups/:groupId/total reports. */
  function GroupTotal(payments: seq<Payment>, groupId: Id): (r: real)
    ensures (forall p :: p in payments ==> p.groupId != groupId) ==> r == 0.0
    ensures (forall p :: p in payments ==> p.amount >= 0.0) ==> r >= 0.0
  {
    var rows := PaymentsFor(payments, groupId);
    assert (forall p :: p in payments ==> p.amount >= 0.0) ==> NonNegative(rows) by {
      if forall p :: p in payments ==> p.amount >= 0.0 {
        NonNegativeRows(rows);
      }
    }
    SumAmounts(rows)
  }

  lemma {:induction false} PaymentsForAppend(a: seq<Payment>, b: seq<Payment>, groupId: Id)
    ensures PaymentsFor(a + b, groupId) == PaymentsFor(a, groupId) + PaymentsFor(b, groupId)
  {
    if a != [] {
      assert (a + b)[1..] == a[1..] + b;
      PaymentsForAppend(a[1..], b, groupId);
    } else {
      assert a + b == b;
    }
  }

  lemma {:induction false} SumAppend(a: seq<Payment>, b: seq<Payment>)
    ensures SumAmounts(a + b) == SumAmounts(a) + SumAmounts(b)
  {
    if b == [] {
      assert a + b == a;
    } else {
      var init := b[..|b| - 1];
      assert (a + b)[..|a + b| - 1] == a + init;
      SumAppend(a, init);
    }
  }

  /** Appending a row adds its amount to its own group's total and leaves every
      other group's total as it was. */
  lemma TotalAfterAppend(payments: seq<Payment>, p: Payment, groupId: Id)
    ensures GroupTotal(payments + [p], groupId) ==
      GroupTotal(payments, groupId) + (if p.groupId == groupId then p.amount else 0.0)
  {
    PaymentsForAppend(payments, [p], groupId);
    assert PaymentsFor([p], groupId) == if p.groupId == groupId then [p] else [];
    SumAppend(PaymentsFor(payments, groupId), PaymentsFor([p], groupId));
    assert SumAmounts([p]) == p.amount by {
      assert [p][..0] == [];
    }
  }

  /** A verified event raises the total of the session's group by the amount
      charged when it is a completed checkout whose insert succeeds, and
      changes no total otherwise. */
  lemma TotalAfterWebhook(payments: seq<Payment>, event: Event, insertError: Option<DbError>, groupId: Id)
    ensures GroupTotal(Reconcile(payments, event, insertError), groupId) ==
      GroupTotal(payments, groupId) +
      (if event.kind == CheckoutCompleted && insertError.None? && event.session.groupId == groupId
       then Dollars(event.session.amountTotal) else 0.0)
  {
    if event.kind == CheckoutCompleted && insertError.None? {
      TotalAfterAppend(payments, PaymentOf(event.session), groupId);
    }
  }

  /** The reconciler has no idempotency key: the same completed event delivered
      twice is recorded twice and counted twice in its group's total. */
  lemma DuplicateDeliveryRecordedTwice(payments: seq<Payment>, event: Event)
    requires event.kind == CheckoutCompleted
    ensures var twice := Reconcile(Reconcile(payments, event, None), event, None);
      && twice == payments + [PaymentOf(event.session), PaymentOf(event.session)]
      && GroupTotal(twice, event.session.groupId) ==
         GroupTotal(payments, event.session.groupId) + 2.0 * Dollars(event.session.amountTotal)
  {
    var once := Reconcile(payments, event, None);
    TotalAfterWebhook(payments, event, None, event.session.groupId);
    TotalAfterWebhook(once, event, None, event.session.groupId);
  }

  /** End to end: a deposit of a whole number of cents, once the processor
      reports its session completed, raises the group's total by exactly the
      amount deposited. */
  lemma DepositThenWebhook(payments: seq<Payment>, groupId: Id, userId: Id, cents: int, url: string)
    requires cents > 0
    ensures var deposit := Deposit(groupId, userId, Some(Dollars(cents)), Ok(url));
      && deposit.reply.status == 200
      && |deposit.sessions| == 1
      && GroupTotal(Reconcile(payments, CompletedEvent(deposit.sessions[0]), None), groupId) ==
         GroupTotal(payments, groupId) + Dollars(cents)
  {
    var deposit := Deposit(groupId, userId, Some(Dollars(cents)), Ok(url));
    ExactCents(cents);
    var event := CompletedEvent(deposit.sessions[0]);
    assert event.session.amountTotal == cents;
    TotalAfterWebhook(payments, event, None, groupId);
  }

  /** Depositing 12.50 opens a 1250-cent session, and settling it raises the group's total by 12.50. */
  lemma DepositTwelveFifty(payments: seq<Payment>, groupId: Id, userId: Id, url: string)
    ensures var deposit := Deposit(groupId, userId, Some(12.5), Ok(url));
      && deposit.sessions == [CheckoutRequest(1250, 1, "usd", userId, groupId)]
      && GroupTotal(Reconcile(payments, CompletedEvent(deposit.sessions[0]), None), groupId) ==
         GroupTotal(payments, groupId) + 12.5
  {
    assert Dollars(1250) == 12.5;
    DepositThenWebhook(payments, groupId, userId, 1250, url);
  }

  // ---------------------------------------------------------------- contributions

  /** One user's entry in the contributions map. */
  datatype Contribution = Contribution(username: string, total: real)

  /** The distinct users among `rows`. */
  function UserIds(rows: seq<Payment>): set<Id> {
    set p | p in rows :: p.userId
  }

  /** The sum of one user's amounts, added up in row order. */
  function UserSum(rows: seq<Payment>, userId: Id): (r: real)
    ensures NonNegative(rows) ==> r >= 0.0
  {
    if rows == [] then 0.0
    else UserSum(rows[..|rows| - 1], userId) + (if rows[|rows| - 1].userId == userId then rows[|rows| - 1].amount else 0.0)
  }

  /** `contributions` holds, for each user among `rows`, that user's sum and
      the username of that user's profile. */
  ghost predicate Tallied(contributions: map<Id, Contribution>, rows: seq<Payment>, profiles: seq<Profile>) {
    && contributions.Keys == UserIds(rows)
    && forall u :: u in contributions ==>
         && contributions[u].total == UserSum(rows, u)
         && Profiles.ProfileOf(profiles, u).Some?
         && Profiles.ProfileOf(profiles, u).value.username == contributions[u].username
  }

  /** One pass of the `forEach` body keeps the tally: the entry's user gets an
      entry with a zero total if it has none, and the amount is added to it. */
  lemma TallyStep(contributions: map<Id, Contribution>, rows: seq<Payment>, entry: Payment, profiles: seq<Profile>)
    requires Tallied(contributions, rows, profiles)
    requires Profiles.ProfileOf(profiles, entry.userId).Some?
    ensures var uid := entry.userId;
      var seeded := if uid in contributions then contributions
                    else contributions[uid := Contribution(Profiles.ProfileOf(profiles, uid).value.username, 0.0)];
      Tallied(seeded[uid := seeded[uid].(total := seeded[uid].total + entry.amount)], rows + [entry], profiles)
  {
    var uid := entry.userId;
    var name := Profiles.ProfileOf(profiles, uid).value.username;
    var seeded := if uid in contributions then contributions else contributions[uid := Contribution(name, 0.0)];
    var after := seeded[uid := seeded[uid].(total := seeded[uid].total + entry.amount)];
    var grown := rows + [entry];
    assert seeded[uid].total == UserSum(rows, uid) by {
      if uid !in contributions {
        UserSumAbsent(rows, uid);
      }
    }
    assert UserIds(grown) == UserIds(rows) + {uid} by {
      assert forall p :: p in grown <==> p in rows || p == entry;
    }
    forall u | u in after
      ensures after[u].total == UserSum(grown, u)
      ensures Profiles.ProfileOf(profiles, u).Some?
      ensures Profiles.ProfileOf(profiles, u).value.username == after[u].username
    {
      UserSumSnoc(rows, entry, u);
    }
  }

  /** The `forEach` of GET /groups/:groupId/contributions over the group's rows
      (`profiles` supplies the joined username). `complete` is false when a
      row's user has no profile: there `entry.profile.username` throws and the
      handler never answers. */
  method Aggregate(rows: seq<Payment>, profiles: seq<Profile>)
    returns (complete: bool, contributions: map<Id, Contribution>)
    ensures complete <==> forall p :: p in rows ==> Profiles.HasId(profiles, p.userId)
    ensures complete ==> contributions.Keys == UserIds(rows)
    ensures complete ==> forall u :: u in contributions ==>
      && contributions[u].total == UserSum(rows, u)
      && Profiles.ProfileOf(profiles, u).Some?
      && Profiles.ProfileOf(profiles, u).value.username == contributions[u].username
    ensures complete && rows == [] ==> contributions == map[]
  {
    contributions := map[];
    var i := 0;
    while i < |rows|
      invariant 0 <= i <= |rows|
      invariant forall k :: 0 <= k < i ==> Profiles.HasId(profiles, rows[k].userId)
      invariant Tallied(contributions, rows[..i], profiles)
    {
      var entry := rows[i];
      var uid := entry.userId;
      var profile := Profiles.ProfileOf(profiles, uid);
      if profile.None? {
        assert rows[i] in rows;
        return false, contributions;
      }
      TallyStep(contributions, rows[..i], entry, profiles);
      if uid !in contributions {
        contributions := contributions[uid := Contribution(profile.value.username, 0.0)];
      }
      contributions := contributions[uid := contributions[uid].(total := contributions[uid].total + entry.amount)];
      assert rows[..i + 1] == rows[..i] + [entry];
      i := i + 1;
    }
    assert rows[..i] == rows;
    complete := true;
  }

  /** The distinct users of `rows` in order of first appearance. */
  function UsersInOrder(rows: seq<Payment>): (users: seq<Id>)
    ensures forall u :: u in users <==> u in UserIds(rows)
    ensures forall i, j :: 0 <= i < j < |users| ==> users[i] != users[j]
  {
    if rows == [] then []
    else
      var init := rows[..|rows| - 1];
      var earlier := UsersInOrder(init);
      var u := rows[|rows| - 1].userId;
      assert rows == init + [rows[|rows| - 1]];
      if u in earlier then earlier else earlier + [u]
  }

  /** The users' sums, added up in the order of `users`. */
  function SumOver(users: seq<Id>, rows: seq<Payment>): real {
    if users == [] then 0.0 else UserSum(rows, users[0]) + SumOver(users[1..], rows)
  }

  /** With non-negative amounts no user's sum exceeds the group's total. */
  lemma {:induction false} UserSumBounded(rows: seq<Payment>, userId: Id)
    requires NonNegative(rows)
    ensures UserSum(rows, userId) <= SumAmounts(rows)
  {
    if rows != [] {
      var init := rows[..|rows| - 1];
      UserSumBounded(init, userId);
    }
  }

  /** One more row adds its amount to its own user's sum only. */
  lemma UserSumSnoc(rows: seq<Payment>, x: Payment, userId: Id)
    ensures UserSum(rows + [x], userId) == UserSum(rows, userId) + (if x.userId == userId then x.amount else 0.0)
  {
    assert (rows + [x])[..|rows|] == rows;
  }

  lemma UserSumAbsent(rows: seq<Payment>, userId: Id)
    requires userId !in UserIds(rows)
    ensures UserSum(rows, userId) == 0.0
  {
    if rows != [] {
      var init := rows[..|rows| - 1];
      assert UserIds(init) <= UserIds(rows) by {
        forall p | p in init ensures p in rows { }
      }
      UserSumAbsent(init, userId);
      assert rows[|rows| - 1] in rows;
    }
  }

  lemma {:induction false} SumOverAppendRow(users: seq<Id>, rows: seq<Payment>, x: Payment)
    requires forall i, j :: 0 <= i < j < |users| ==> users[i] != users[j]
    ensures SumOver(users, rows + [x]) == SumOver(users, rows) + (if x.userId in users then x.amount else 0.0)
  {
    if users != [] {
      assert (rows + [x])[..|rows + [x]| - 1] == rows;
      SumOverAppendRow(users[1..], rows, x);
      assert x.userId == users[0] ==> x.userId !in users[1..];
      assert x.userId in users <==> x.userId == users[0] || x.userId in users[1..];
    }
  }

  lemma {:induction false} SumOverAppendUser(users: seq<Id>, userId: Id, rows: seq<Payment>)
    ensures SumOver(users + [userId], rows) == SumOver(users, rows) + UserSum(rows, userId)
  {
    if users == [] {
      assert SumOver([userId], rows) == UserSum(rows, userId) + SumOver([], rows);
    } else {
      assert (users + [userId])[1..] == users[1..] + [userId];
      SumOverAppendUser(users[1..], userId, rows);
    }
  }

  /** The per-user totals add up to the group total: summed over the distinct
      users, each user's sum gives back the whole `reduce`. */
  lemma {:induction false} ContributionsAddUp(rows: seq<Payment>)
    ensures SumOver(UsersInOrder(rows), rows) == SumAmounts(rows)
  {
    if rows != [] {
      var init := rows[..|rows| - 1];
      var x := rows[|rows| - 1];
      assert rows == init + [x];
      var earlier := UsersInOrder(init);
      ContributionsAddUp(init);
      SumOverAppendRow(earlier, init, x);
      if x.userId !in earlier {
        SumOverAppendUser(earlier, x.userId, rows);
        UserSumAbsent(init, x.userId);
      }
    }
  }

  /** For the contributions handler: the totals of a group's users add up to
      the group's total. */
  lemma ContributionsMatchTotal(payments: seq<Payment>, groupId: Id)
    ensures var rows := PaymentsFor(payments, groupId);
      SumOver(UsersInOrder(rows), rows) == GroupTotal(payments, groupId)
  {
    ContributionsAddUp(PaymentsFor(payments, groupId));
  }
}
