/** Migration 0096: stamping the sale-time commission on past transactions, and
    taking the stamps off again.  Money is in whole cents, the unit of
    NUMERIC(12, 2). */
module Commission {

  datatype Kind = Purchase | Milestone | AttestationFee | Refund | Payout

  datatype Transaction = Transaction(kind: Kind, amount: int, commission: int, net: int)

  predicate Earning(k: Kind) { k.Purchase? || k.Milestone? || k.AttestationFee? }

  /** The table's CHECK constraints. */
  predicate Checked(r: Transaction) { 0 < r.amount && 0 <= r.commission && 0 <= r.net }

  predicate Unstamped(r: Transaction) { r.commission == 0 && r.net == r.amount }

  /** The shape the downgrade takes for a stamp. */
  predicate Stamped(r: Transaction) { 0 < r.commission && r.net == r.amount - r.commission }

  // ---- Rates and rounding -----------------------------------------------------

  /** COALESCE of the configured value and the default. */
  function MarketplaceRate(config: map<string, real>): real {
    if "commission_rate" in config then config["commission_rate"] else 0.15
  }

  function AttestationRate(config: map<string, real>): real {
    if "attestation_commission_rate" in config then config["attestation_commission_rate"] else 0.10
  }

  function RateFor(config: map<string, real>, k: Kind): real {
    if k.AttestationFee? then AttestationRate(config) else MarketplaceRate(config)
  }

  ghost predicate RatesOk(config: map<string, real>) {
    0.0 <= MarketplaceRate(config) <= 1.0 && 0.0 <= AttestationRate(config) <= 1.0
  }

  /** NUMERIC rounding: halves away from zero. */
  function Round(x: real): int {
    if x >= 0.0 then (x + 0.5).Floor else -((-x + 0.5).Floor)
  }

  lemma RoundIsNearest(x: real)
    ensures Round(x) as real - 0.5 <= x <= Round(x) as real + 0.5
    ensures x - x.Floor as real == 0.5 ==> Round(x) == if x > 0.0 then x.Floor + 1 else x.Floor
  {
  }

  function Cut(amount: int, rate: real): int { Round(amount as real * rate) }

  lemma CutWithinAmount(amount: int, rate: real)
    requires 0 <= amount && 0.0 <= rate <= 1.0
    ensures 0 <= Cut(amount, rate) <= amount
  {
  }

  // ---- The statements, row by row -----------------------------------------------

  function Stamp(r: Transaction, rate: real): Transaction {
    r.(commission := Cut(r.amount, rate), net := r.amount - Cut(r.amount, rate))
  }

  function UpRow(config: map<string, real>, r: Transaction): Transaction {
    if Earning(r.kind) && Unstamped(r) then Stamp(r, RateFor(config, r.kind)) else r
  }

  function DownRow(r: Transaction): Transaction {
    if Earning(r.kind) && Stamped(r) then r.(commission := 0, net := r.amount) else r
  }

  function Up(config: map<string, real>, rows: seq<Transaction>): seq<Transaction> {
    seq(|rows|, i requires 0 <= i < |rows| => UpRow(config, rows[i]))
  }

  function Down(rows: seq<Transaction>): seq<Transaction> {
    seq(|rows|, i requires 0 <= i < |rows| => DownRow(rows[i]))
  }

  class Database {
    const transactions: array<Transaction>

    constructor (transactions: array<Transaction>)
      ensures this.transactions == transactions
    {
      this.transactions := transactions;
    }

    /** Two guarded UPDATEs, one for each rate. */
    method Upgrade(config: map<string, real>)
      modifies transactions
      ensures transactions[..] == Up(config, old(transactions[..]))
    {
      var rate := MarketplaceRate(config);
      forall i | 0 <= i < transactions.Length
        && (transactions[i].kind.Purchase? || transactions[i].kind.Milestone?)
        && transactions[i].commission == 0 && transactions[i].net == transactions[i].amount
      {
        transactions[i] := Stamp(transactions[i], rate);
      }
      rate := AttestationRate(config);
      forall i | 0 <= i < transactions.Length
        && transactions[i].kind.AttestationFee?
        && transactions[i].commission == 0 && transactions[i].net == transactions[i].amount
      {
        transactions[i] := Stamp(transactions[i], rate);
      }
    }

    method Downgrade()
      modifies transactions
      ensures transactions[..] == Down(old(transactions[..]))
    {
      forall i | 0 <= i < transactions.Length
        && (transactions[i].kind.Purchase? || transactions[i].kind.Milestone? || transactions[i].kind.AttestationFee?)
        && 0 < transactions[i].commission
        && transactions[i].net == transactions[i].amount - transactions[i].commission
      {
        transactions[i] := transactions[i].(commission := 0, net := transactions[i].amount);
      }
    }
  }

  // ---- Which row gets which rate ---------------------------------------------------

  /** Purchases and milestones are stamped at the configured commission rate, 15
      percent when none is configured; attestation fees at theirs, 10 percent when
      none is; refunds, payouts and rows already stamped are left alone, both ways. */
  lemma StampsByKind(config: map<string, real>, r: Transaction)
    ensures (r.kind.Purchase? || r.kind.Milestone?) && r.commission == 0 && r.net == r.amount ==>
              var rate := if "commission_rate" in config then config["commission_rate"] else 0.15;
              UpRow(config, r) == Transaction(r.kind, r.amount, Cut(r.amount, rate), r.amount - Cut(r.amount, rate))
    ensures r.kind.AttestationFee? && r.commission == 0 && r.net == r.amount ==>
              var rate := if "attestation_commission_rate" in config then config["attestation_commission_rate"]
                          else 0.10;
              UpRow(config, r) == Transaction(r.kind, r.amount, Cut(r.amount, rate), r.amount - Cut(r.amount, rate))
    ensures r.commission != 0 || r.net != r.amount ==> UpRow(config, r) == r
    ensures r.kind.Refund? || r.kind.Payout? ==> UpRow(config, r) == r && DownRow(r) == r
    ensures r.commission <= 0 || r.net != r.amount - r.commission ==> DownRow(r) == r
  {
  }

  // ---- What the migration promises ------------------------------------------------

  /** The platform's share of a stamped row is within half a cent of the
      exact share. */
  lemma StampIsNearestCent(config: map<string, real>, r: Transaction)
    requires Earning(r.kind) && Unstamped(r)
    ensures var exact := r.amount as real * RateFor(config, r.kind);
            UpRow(config, r).commission as real - 0.5 <= exact <= UpRow(config, r).commission as real + 0.5
  {
    StampOf(r, RateFor(config, r.kind), r.amount as real * RateFor(config, r.kind));
  }

  lemma StampOf(r: Transaction, rate: real, exact: real)
    requires exact == r.amount as real * rate
    ensures Stamp(r, rate).commission as real - 0.5 <= exact <= Stamp(r, rate).commission as real + 0.5
  {
    RoundIsNearest(exact);
  }

  /** Every stamped row splits its amount exactly, at the nearest cent, and the
      CHECKs stay true. */
  lemma UpgradeKeepsChecks(config: map<string, real>, rows: seq<Transaction>, i: nat)
    requires RatesOk(config) && i < |rows| && Checked(rows[i])
    ensures 0 < Up(config, rows)[i].amount && 0 <= Up(config, rows)[i].commission && 0 <= Up(config, rows)[i].net
    ensures Earning(rows[i].kind) && Unstamped(rows[i]) ==>
              Up(config, rows)[i].commission + Up(config, rows)[i].net == rows[i].amount
    ensures Earning(rows[i].kind) && Unstamped(rows[i]) ==>
              Up(config, rows)[i].commission as real - 0.5
              <= rows[i].amount as real * RateFor(config, rows[i].kind)
              <= Up(config, rows)[i].commission as real + 0.5
    ensures 0 < Down(rows)[i].amount && 0 <= Down(rows)[i].commission && 0 <= Down(rows)[i].net
  {
    if Earning(rows[i].kind) && Unstamped(rows[i]) {
      StampIsNearestCent(config, rows[i]);
    }
    CutWithinAmount(rows[i].amount, RateFor(config, rows[i].kind));
  }

  /** Upgrading twice at the same rates is upgrading once.  At new rates the
      second upgrade changes nothing if and only if every row whose first stamp
      rounded to nothing rounds to nothing again. */
  lemma UpgradeIsIdempotent(config: map<string, real>, later: map<string, real>, rows: seq<Transaction>)
    ensures Up(config, Up(config, rows)) == Up(config, rows)
    ensures Up(later, Up(config, rows)) == Up(config, rows)
            <==> forall i :: 0 <= i < |rows| && Earning(rows[i].kind) && Unstamped(rows[i])
                   && Cut(rows[i].amount, RateFor(config, rows[i].kind)) == 0
                   ==> Cut(rows[i].amount, RateFor(later, rows[i].kind)) == 0
  {
    forall i | 0 <= i < |rows|
      ensures Up(later, Up(config, rows))[i] == Up(config, rows)[i]
              <==> (Earning(rows[i].kind) && Unstamped(rows[i])
                    && Cut(rows[i].amount, RateFor(config, rows[i].kind)) == 0
                    ==> Cut(rows[i].amount, RateFor(later, rows[i].kind)) == 0)
    {
      SecondStamp(config, later, rows[i]);
    }
    forall i | 0 <= i < |rows| ensures Up(config, Up(config, rows))[i] == Up(config, rows)[i] {
      SecondStamp(config, config, rows[i]);
    }
  }

  lemma SecondStamp(config: map<string, real>, later: map<string, real>, r: Transaction)
    ensures UpRow(later, UpRow(config, r)) == UpRow(config, r)
            <==> (Earning(r.kind) && Unstamped(r) && Cut(r.amount, RateFor(config, r.kind)) == 0
                  ==> Cut(r.amount, RateFor(later, r.kind)) == 0)
  {
  }

  lemma RowRestoredIff(config: map<string, real>, r: Transaction)
    requires RatesOk(config) && Checked(r)
    ensures DownRow(UpRow(config, r)) == r <==> !(Earning(r.kind) && Stamped(r))
  {
    CutWithinAmount(r.amount, RateFor(config, r.kind));
  }

  /** The downgrade restores the table exactly if and only if no earning row was
      stamped before the upgrade; rows whose commission rounds to zero included. */
  lemma DowngradeRestoresIff(config: map<string, real>, rows: seq<Transaction>)
    requires RatesOk(config) && forall i :: 0 <= i < |rows| ==> Checked(rows[i])
    ensures Down(Up(config, rows)) == rows
            <==> forall i :: 0 <= i < |rows| ==> !(Earning(rows[i].kind) && Stamped(rows[i]))
  {
    var back := Down(Up(config, rows));
    forall i | 0 <= i < |rows| ensures back[i] == rows[i] <==> !(Earning(rows[i].kind) && Stamped(rows[i])) {
      RowRestoredIff(config, rows[i]);
    }
  }

  /** A sale stamped when it settled loses its snapshot on the way back. */
  lemma SettledSaleLosesStamp(config: map<string, real>)
    ensures Down(Up(config, [Transaction(Purchase, 100, 20, 80)])) == [Transaction(Purchase, 100, 0, 100)]
  {
  }

  // ---- Conservation -----------------------------------------------------------------

  function Total(rows: seq<Transaction>): int {
    if |rows| == 0 then 0 else rows[0].commission + rows[0].net + Total(rows[1..])
  }

  /** Neither direction creates or destroys money: what the platform and the
      sellers hold together is unchanged, whatever the rates and the rows. */
  lemma {:induction false} MoneyIsConserved(config: map<string, real>, rows: seq<Transaction>)
    ensures Total(Up(config, rows)) == Total(rows) && Total(Down(rows)) == Total(rows)
  {
    if |rows| > 0 {
      MoneyIsConserved(config, rows[1..]);
      assert Up(config, rows)[1..] == Up(config, rows[1..]);
      assert Down(rows)[1..] == Down(rows[1..]);
    }
  }
}
