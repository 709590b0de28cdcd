/**
 * The transfer screen: its state, the handlers that change it, and the
 * predicates that enable its two buttons.
 *
 * The wallet hooks (connected account, balance), the fee estimation calls
 * and the outcome of sending are inputs: a `Wallet` value, an `Estimate`
 * value, and the `OnSendSuccess` / `OnSendError` callbacks.
 */
module TransferScreen {
  import opened Wrappers
  import opened Units
  import opened Validators

  /** What the wallet hooks report: the connected account's address and its balance. */
  datatype Wallet = Wallet(account: Option<string>, balance: Option<Balance>)

  /** A prepared native-token transfer: the recipient and the value in wei. */
  datatype Transaction = Transaction(to: string, value: nat)

  /** What the gas price and gas estimation calls give: both numbers, or the error thrown. */
  datatype Estimate = Estimated(gasPrice: nat, gas: nat) | EstimateFailed(message: string)

  /** An alert dialog: title and message. */
  datatype Alert = Alert(title: string, message: string)

  /** The guards of `handleTransfer`, in the order they are checked. */
  datatype TransferError =
    | NotConnected
    | MissingRecipient
    | InvalidRecipient
    | MissingAmount
    | InvalidAmount
    | InsufficientBalance

  /** What pressing Transfer leads to. */
  datatype TransferOutcome =
    | Rejected(error: TransferError)
    | EstimationFailed(message: string)
    | AwaitingConfirmation(tx: Transaction, fee: string)

  /** The position of a guard in the chain. */
  function Rank(e: TransferError): nat {
    match e
    case NotConnected => 0
    case MissingRecipient => 1
    case InvalidRecipient => 2
    case MissingAmount => 3
    case InvalidAmount => 4
    case InsufficientBalance => 5
  }

  /** The result of each check `handleTransfer` makes. */
  datatype Checks = Checks(
    connected: bool,
    recipientBlank: bool,
    recipientValid: bool,
    amountBlank: bool,
    amountValid: bool,
    sufficient: bool)

  /** The checks on the current inputs: `!toAddress.trim()` is `Trim(toAddress) == ""`. */
  function Evaluate(wallet: Wallet, toAddress: string, amount: string): Checks {
    Checks(
      wallet.account.Some?,
      Trim(toAddress) == "",
      IsValidAddress(toAddress),
      Trim(amount) == "",
      IsValidAmount(amount),
      HasSufficientBalance(amount, wallet.balance))
  }

  /** Whether the guard that reports `e` fails. */
  predicate Fails(e: TransferError, c: Checks) {
    match e
    case NotConnected => !c.connected
    case MissingRecipient => c.recipientBlank
    case InvalidRecipient => !c.recipientValid
    case MissingAmount => c.amountBlank
    case InvalidAmount => !c.amountValid
    case InsufficientBalance => !c.sufficient
  }

  /** The guard chain of `handleTransfer`: the error it reports, if any. */
  function FirstFailure(c: Checks): Option<TransferError> {
    if !c.connected then Some(NotConnected)
    else if c.recipientBlank then Some(MissingRecipient)
    else if !c.recipientValid then Some(InvalidRecipient)
    else if c.amountBlank then Some(MissingAmount)
    else if !c.amountValid then Some(InvalidAmount)
    else if !c.sufficient then Some(InsufficientBalance)
    else None
  }

  /** The chain reports `e` exactly when `e`'s guard fails and every earlier guard passes. */
  lemma FirstFailureIsFirst(c: Checks, e: TransferError)
    ensures FirstFailure(c) == Some(e) <==>
      Fails(e, c) && forall d :: Rank(d) < Rank(e) ==> !Fails(d, c)
  {
    if FirstFailure(c) == Some(e) {
      forall d | Rank(d) < Rank(e) ensures !Fails(d, c) {
        match d
        case NotConnected =>
        case MissingRecipient =>
        case InvalidRecipient =>
        case MissingAmount =>
        case InvalidAmount =>
        case InsufficientBalance =>
      }
    }
    if Fails(e, c) && forall d :: Rank(d) < Rank(e) ==> !Fails(d, c) {
      assert Rank(NotConnected) == 0 && Rank(MissingRecipient) == 1 && Rank(InvalidRecipient) == 2;
      assert Rank(MissingAmount) == 3 && Rank(InvalidAmount) == 4;
    }
  }

  /** No error is reported exactly when no guard fails. */
  lemma NoFailureIff(c: Checks)
    ensures FirstFailure(c) == None <==> forall e :: !Fails(e, c)
  {
    if FirstFailure(c) == None {
      forall e ensures !Fails(e, c) {
        match e
        case NotConnected =>
        case MissingRecipient =>
        case InvalidRecipient =>
        case MissingAmount =>
        case InvalidAmount =>
        case InsufficientBalance =>
      }
    } else {
      assert Fails(FirstFailure(c).value, c);
    }
  }

  /**
   * All guards pass exactly when the wallet is connected, the address and
   * the amount are valid and the balance covers the amount: the two
   * emptiness checks never decide on their own.
   */
  lemma {:induction false} GuardsPassIff(wallet: Wallet, toAddress: string, amount: string)
    ensures FirstFailure(Evaluate(wallet, toAddress, amount)) == None <==>
      && wallet.account.Some?
      && IsValidAddress(toAddress)
      && IsValidAmount(amount)
      && HasSufficientBalance(amount, wallet.balance)
  {
    if IsValidAddress(toAddress) {
      ValidAddressNotBlank(toAddress);
    }
    if IsValidAmount(amount) {
      ValidAmountNotBlank(amount);
    }
  }

  /** The message of the alert each guard shows, titled "Error". */
  function GuardMessage(e: TransferError): string {
    match e
    case NotConnected => "Please connect your wallet first"
    case MissingRecipient => "Please enter a recipient address"
    case InvalidRecipient => "Please enter a valid Ethereum address"
    case MissingAmount => "Please enter an amount to transfer"
    case InvalidAmount => "Please enter a valid amount (must be greater than 0)"
    case InsufficientBalance => "Insufficient balance"
  }

  /** No two guards show the same message, so the alert tells which guard failed. */
  lemma GuardMessageInjective(e1: TransferError, e2: TransferError)
    ensures GuardMessage(e1) == GuardMessage(e2) ==> e1 == e2
  {
  }

  /** `message || fallback`: an empty message is replaced by the fallback. */
  function OrDefault(message: string, fallback: string): (r: string)
    ensures message != "" ==> r == message
    ensures message == "" ==> r == fallback
  {
    if message != "" then message else fallback
  }

  const EstimateFallback := "Unable to estimate transaction fee"
  const SendFallback := "Unknown error occurred"

  /** The alert shown for an outcome of pressing Transfer; none when the confirm dialog opens. */
  function OutcomeAlert(o: TransferOutcome): (r: Option<Alert>)
    ensures r.None? <==> o.AwaitingConfirmation?
    ensures o.Rejected? ==> r == Some(Alert("Error", GuardMessage(o.error)))
    ensures o.EstimationFailed? ==> r == Some(Alert("Estimation Failed", OrDefault(o.message, EstimateFallback)))
    ensures o.EstimationFailed? ==> r.Some? && r.value.message != ""
  {
    match o
    case Rejected(e) => Some(Alert("Error", GuardMessage(e)))
    case EstimationFailed(message) => Some(Alert("Estimation Failed", OrDefault(message, EstimateFallback)))
    case AwaitingConfirmation(_, _) => None
  }

  /** `prepareTransaction({to, value: toWei(amount)})`; `None` when the conversion throws. */
  function Prepare(toAddress: string, amount: string): Option<Transaction> {
    match ToWei(amount)
    case None => None
    case Some(wei) => Some(Transaction(toAddress, wei))
  }

  /** The fee text shown in the confirm dialog: `fromWei(gas * gasPrice, 18)`. */
  function FeeText(gasPrice: nat, gas: nat): (fee: string)
    ensures fee != ""
  {
    FromWei(gas * gasPrice)
  }

  /** The fee text converts back to exactly the maximal fee in wei. */
  lemma FeeTextRoundTrip(gasPrice: nat, gas: nat)
    ensures ToWei(FeeText(gasPrice, gas)) == Some(gas * gasPrice)
  {
    FromWeiRoundTrip(gas * gasPrice);
  }

  /**
   * When the guards pass the transaction can be prepared, and it goes to a
   * valid address and moves a value the balance covers.
   */
  lemma PreparedTransactionIsCovered(wallet: Wallet, toAddress: string, amount: string)
    requires FirstFailure(Evaluate(wallet, toAddress, amount)) == None
    ensures Prepare(toAddress, amount).Some?
    ensures var tx := Prepare(toAddress, amount).value;
      && tx.to == toAddress && IsValidAddress(tx.to)
      && wallet.balance.Some? && tx.value <= wallet.balance.value.value
  {
    GuardsPassIff(wallet, toAddress, amount);
  }

  /**
   * When the guards pass and the amount has at most 18 fractional digits,
   * the prepared transaction moves a positive value.
   */
  lemma PreparedTransactionIsPositive(wallet: Wallet, toAddress: string, amount: string)
    requires FirstFailure(Evaluate(wallet, toAddress, amount)) == None
    requires ParseNumeral(amount).Some? && |ParseNumeral(amount).value.fraction| <= Decimals
    ensures Prepare(toAddress, amount).Some? && Prepare(toAddress, amount).value.value > 0
  {
    GuardsPassIff(wallet, toAddress, amount);
    ValidAmountIffPositiveWei(amount);
  }

  /**
   * What pressing Transfer leads to: the first failing guard's error;
   * otherwise the estimate's error, or the prepared transaction and its fee text.
   */
  function Respond(wallet: Wallet, toAddress: string, amount: string, estimate: Estimate): (o: TransferOutcome)
    ensures o.AwaitingConfirmation? ==> o.fee != ""
  {
    var failure := FirstFailure(Evaluate(wallet, toAddress, amount));
    if failure.Some? then Rejected(failure.value)
    else
      PreparedTransactionIsCovered(wallet, toAddress, amount);
      match estimate
      case Estimated(gasPrice, gas) => AwaitingConfirmation(Prepare(toAddress, amount).value, FeeText(gasPrice, gas))
      case EstimateFailed(message) => EstimationFailed(message)
  }

  /**
   * Pressing Transfer is rejected exactly when some guard fails, and the
   * error reported is that of a failing guard all of whose predecessors pass.
   */
  lemma RespondRejectsIff(wallet: Wallet, toAddress: string, amount: string, estimate: Estimate)
    ensures var o := Respond(wallet, toAddress, amount, estimate);
      o.Rejected? <==> exists e :: Fails(e, Evaluate(wallet, toAddress, amount))
    ensures var o, c := Respond(wallet, toAddress, amount, estimate), Evaluate(wallet, toAddress, amount);
      o.Rejected? ==> Fails(o.error, c) && forall d :: Rank(d) < Rank(o.error) ==> !Fails(d, c)
  {
    var c := Evaluate(wallet, toAddress, amount);
    NoFailureIff(c);
    if FirstFailure(c).Some? {
      FirstFailureIsFirst(c, FirstFailure(c).value);
    }
  }

  /** When a guard fails the estimate plays no part: no estimation call is made. */
  lemma RejectionIgnoresEstimate(wallet: Wallet, toAddress: string, amount: string, e1: Estimate, e2: Estimate)
    requires FirstFailure(Evaluate(wallet, toAddress, amount)).Some?
    ensures Respond(wallet, toAddress, amount, e1) == Respond(wallet, toAddress, amount, e2)
  {
  }

  /**
   * The confirm dialog opens exactly when every guard passes and the fee is
   * estimated; it then shows the transaction to the recipient, covered by
   * the balance, and the fee text that converts back to gas * gasPrice.
   */
  lemma RespondConfirmsIff(wallet: Wallet, toAddress: string, amount: string, estimate: Estimate)
    ensures var o := Respond(wallet, toAddress, amount, estimate);
      o.AwaitingConfirmation? <==>
        && wallet.account.Some? && IsValidAddress(toAddress) && IsValidAmount(amount)
        && HasSufficientBalance(amount, wallet.balance) && estimate.Estimated?
    ensures var o := Respond(wallet, toAddress, amount, estimate);
      o.AwaitingConfirmation? ==>
        && Prepare(toAddress, amount) == Some(o.tx)
        && o.tx.to == toAddress
        && o.tx.value <= wallet.balance.value.value
        && ToWei(o.fee) == Some(estimate.gas * estimate.gasPrice)
  {
    GuardsPassIff(wallet, toAddress, amount);
    if estimate.Estimated? {
      FeeTextRoundTrip(estimate.gasPrice, estimate.gas);
    }
  }

  /**
   * A failed estimate is reported, with its own message, exactly when the
   * wallet is connected, address and amount are valid, the balance covers
   * the amount, and the estimation threw.
   */
  lemma RespondEstimationFailed(wallet: Wallet, toAddress: string, amount: string, estimate: Estimate)
    ensures var o := Respond(wallet, toAddress, amount, estimate);
      o.EstimationFailed? <==>
        && wallet.account.Some? && IsValidAddress(toAddress) && IsValidAmount(amount)
        && HasSufficientBalance(amount, wallet.balance) && estimate.EstimateFailed?
    ensures var o := Respond(wallet, toAddress, amount, estimate);
      o.EstimationFailed? ==> o.message == estimate.message
  {
    GuardsPassIff(wallet, toAddress, amount);
  }

  /**
   * What Confirm does: hand the transaction to the send mutation, or throw
   * out of the handler when `toWei` throws (its call has no `try` around it).
   */
  datatype Submission = Submitted(tx: Transaction) | ConversionThrew

  /** `confirmTransfer`'s `prepareTransaction({to, value: toWei(amount)})` on the current fields. */
  function Submit(toAddress: string, amount: string): Submission {
    match Prepare(toAddress, amount)
    case None => ConversionThrew
    case Some(tx) => Submitted(tx)
  }

  /**
   * Confirm throws exactly when the amount does not convert; otherwise it
   * sends the entered amount in wei to the entered address.
   */
  lemma SubmitIff(toAddress: string, amount: string)
    ensures Submit(toAddress, amount).ConversionThrew? <==> ToWei(amount).None?
    ensures Submit(toAddress, amount).Submitted? ==>
      Submit(toAddress, amount).tx == Transaction(toAddress, ToWei(amount).value)
  {
  }

  /**
   * Confirming with the fields the dialog was opened for sends the very
   * transaction the dialog was opened with, and never throws.
   */
  lemma ConfirmSendsEstimatedTransaction(wallet: Wallet, toAddress: string, amount: string, estimate: Estimate)
    requires Respond(wallet, toAddress, amount, estimate).AwaitingConfirmation?
    ensures Submit(toAddress, amount) == Submitted(Respond(wallet, toAddress, amount, estimate).tx)
  {
    RespondConfirmsIff(wallet, toAddress, amount, estimate);
  }

  /** The Transfer button's `disabled` expression, negated. */
  predicate TransferEnabled(toAddress: string, amount: string, balance: Option<Balance>, isPending: bool) {
    !(!IsValidAddress(toAddress) || !IsValidAmount(amount) || !HasSufficientBalance(amount, balance) || isPending)
  }

  /**
   * With a wallet connected (the only case in which the button is shown),
   * the Transfer button is enabled exactly when pressing it would pass every
   * guard and nothing is pending.
   */
  lemma TransferEnabledIff(wallet: Wallet, toAddress: string, amount: string, isPending: bool)
    requires wallet.account.Some?
    ensures TransferEnabled(toAddress, amount, wallet.balance, isPending) <==>
      FirstFailure(Evaluate(wallet, toAddress, amount)) == None && !isPending
  {
    GuardsPassIff(wallet, toAddress, amount);
  }

  /** The Confirm button's `disabled` expression (`!estFee || isPending`), negated. */
  predicate ConfirmEnabled(estFee: Option<string>, isPending: bool) {
    !(estFee.None? || estFee.value == "" || isPending)
  }

  /** The explorer page of a transaction. */
  const ExplorerTxPrefix := "https://testnet.monvision.io/tx/"

  function ExplorerUrl(txHash: string): (url: string)
    ensures |url| == |ExplorerTxPrefix| + |txHash|
    ensures url[..|ExplorerTxPrefix|] == ExplorerTxPrefix
    ensures url[|ExplorerTxPrefix|..] == txHash
  {
    ExplorerTxPrefix + txHash
  }

  /** Different transactions have different explorer pages. */
  lemma ExplorerUrlInjective(a: string, b: string)
    requires ExplorerUrl(a) == ExplorerUrl(b)
    ensures a == b
  {
    assert a == ExplorerUrl(a)[|ExplorerTxPrefix|..];
  }

  const InvalidPasteAlert := Alert("Invalid Address", "The clipboard does not contain a valid Ethereum address.")
  const PermissionPendingAlert := Alert("Permission Pending", "Requesting camera permission...")
  const NoCameraAlert := Alert("No Camera Access", "Please grant camera permission in settings to use QR scanner.")
  const InvalidScanAlert := Alert("Invalid QR Code", "The scanned QR code does not contain a valid Ethereum address.")

  /** The alert shown after a successful send. */
  function SuccessAlert(txHash: string): Alert {
    Alert("Transaction Successful!",
      "Transaction Hash: " + txHash + "\n\nWould you like to view it on the blockchain explorer?")
  }

  /**
   * Filling in the balance with MAX gives an amount the balance covers,
   * and that amount is valid exactly when the balance is not zero.
   */
  lemma MaxAmountIsCovered(balance: Balance)
    requires balance.displayValue == FromWei(balance.value)
    ensures HasSufficientBalance(balance.displayValue, Some(balance))
    ensures IsValidAmount(balance.displayValue) <==> balance.value > 0
  {
    FromWeiRoundTrip(balance.value);
    ValidAmountIffPositiveWei(balance.displayValue);
  }

  /** The state of the transfer screen. */
  class Screen {
    var toAddress: string
    var amount: string
    /** The fee text of the last successful estimate; `None` is `null`. */
    var estFee: Option<string>
    var showConfirm: bool
    var showScanner: bool
    /** The send mutation's pending flag. */
    var isPending: bool

    /** A fee, once shown, is never the empty text, so `!estFee` means no fee. */
    predicate Valid()
      reads this
    {
      estFee.Some? ==> estFee.value != ""
    }

    constructor()
      ensures Valid()
      ensures toAddress == "" && amount == "" && estFee == None
      ensures !showConfirm && !showScanner && !isPending
    {
      toAddress := "";
      amount := "";
      estFee := None;
      showConfirm := false;
      showScanner := false;
      isPending := false;
    }

    /** Under the invariant the Confirm button is enabled exactly when a fee is shown and nothing is pending. */
    lemma ConfirmEnabledIff()
      requires Valid()
      ensures ConfirmEnabled(estFee, isPending) <==> estFee.Some? && !isPending
    {
    }

    /** Typing in the recipient field; the fee and the dialog are left as they are. */
    method EditRecipient(text: string)
      requires Valid()
      modifies this`toAddress
      ensures Valid()
      ensures toAddress == text
    {
      toAddress := text;
    }

    /** Typing in the amount field; the fee and the dialog are left as they are. */
    method EditAmount(text: string)
      requires Valid()
      modifies this`amount
      ensures Valid()
      ensures amount == text
    {
      amount := text;
    }

    /** `handleMax`: the amount becomes the balance's display text when there is a balance. */
    method HandleMax(balance: Option<Balance>)
      requires Valid()
      modifies this`amount
      ensures Valid()
      ensures amount == if balance.Some? then balance.value.displayValue else old(amount)
    {
      if balance.Some? {
        amount := balance.value.displayValue;
      }
    }

    /** `handlePasteAddress` with the clipboard text: set the recipient only when it is a valid address. */
    method HandlePasteAddress(text: string) returns (alert: Option<Alert>)
      requires Valid()
      modifies this`toAddress
      ensures Valid()
      ensures IsValidAddress(text) ==> toAddress == text && alert == None
      ensures !IsValidAddress(text) ==> toAddress == old(toAddress) && alert == Some(InvalidPasteAlert)
    {
      if IsValidAddress(text) {
        toAddress := text;
        alert := None;
      } else {
        alert := Some(InvalidPasteAlert);
      }
    }

    /** `handleScanAddress` with the camera permission (`None` while the request is pending). */
    method HandleScanAddress(hasPermission: Option<bool>) returns (alert: Option<Alert>)
      requires Valid()
      modifies this`showScanner
      ensures Valid()
      ensures showScanner == (hasPermission == Some(true) || old(showScanner))
      ensures alert.None? <==> hasPermission == Some(true)
      ensures hasPermission == None ==> alert == Some(PermissionPendingAlert)
      ensures hasPermission == Some(false) ==> alert == Some(NoCameraAlert)
    {
      match hasPermission
      case None =>
        alert := Some(PermissionPendingAlert);
      case Some(false) =>
        alert := Some(NoCameraAlert);
      case Some(true) =>
        showScanner := true;
        alert := None;
    }

    /** `handleBarCodeScanned`: close the scanner, then set the recipient only when the data is a valid address. */
    method HandleBarCodeScanned(data: string) returns (alert: Option<Alert>)
      requires Valid()
      modifies this`showScanner, this`toAddress
      ensures Valid()
      ensures !showScanner
      ensures IsValidAddress(data) ==> toAddress == data && alert == None
      ensures !IsValidAddress(data) ==> toAddress == old(toAddress) && alert == Some(InvalidScanAlert)
    {
      showScanner := false;
      if IsValidAddress(data) {
        toAddress := data;
        alert := None;
      } else {
        alert := Some(InvalidScanAlert);
      }
    }

    /** Closing the scanner without a scan. */
    method CloseScanner()
      requires Valid()
      modifies this`showScanner
      ensures Valid()
      ensures !showScanner
    {
      showScanner := false;
    }

    /**
     * `handleTransfer`: the outcome is `Respond`'s; only a successful
     * estimate changes the state, by showing the fee and opening the confirm dialog.
     */
    method HandleTransfer(wallet: Wallet, estimate: Estimate) returns (outcome: TransferOutcome)
      requires Valid()
      modifies this`estFee, this`showConfirm
      ensures outcome == Respond(wallet, old(toAddress), old(amount), estimate)
      ensures estFee == if outcome.AwaitingConfirmation? then Some(outcome.fee) else old(estFee)
      ensures showConfirm == (outcome.AwaitingConfirmation? || old(showConfirm))
      ensures Valid()
    {
      outcome := Respond(wallet, toAddress, amount, estimate);
      if outcome.AwaitingConfirmation? {
        estFee := Some(outcome.fee);
        showConfirm := true;
      }
    }
    /** Dismissing the confirm dialog; the fee stays. */
    method DismissConfirm()
      requires Valid()
      modifies this`showConfirm
      ensures Valid()
      ensures !showConfirm
    {
      showConfirm := false;
    }

    /**
     * `confirmTransfer`: close the dialog, then send the transaction built
     * from the fields as they are now.  When the conversion throws, the
     * exception leaves the handler after the dialog closed and nothing is sent.
     */
    method ConfirmTransfer() returns (result: Submission)
      requires Valid()
      modifies this`showConfirm, this`isPending
      ensures Valid()
      ensures !showConfirm
      ensures result == Submit(old(toAddress), old(amount))
      ensures isPending == (result.Submitted? || old(isPending))
    {
      showConfirm := false;
      match ToWei(amount)
      case None =>
        result := ConversionThrew;
      case Some(wei) =>
        result := Submitted(Transaction(toAddress, wei));
        isPending := true;
    }

    /** The send's `onSuccess`: the form and the fee are cleared; the alert offers the explorer page. */
    method OnSendSuccess(txHash: string) returns (alert: Alert, explorerUrl: string)
      requires Valid()
      modifies this`toAddress, this`amount, this`estFee, this`isPending
      ensures Valid()
      ensures toAddress == "" && amount == "" && estFee == None && !isPending
      ensures alert == SuccessAlert(txHash) && explorerUrl == ExplorerUrl(txHash)
    {
      alert := SuccessAlert(txHash);
      explorerUrl := ExplorerUrl(txHash);
      toAddress := "";
      amount := "";
      estFee := None;
      isPending := false;
    }

    /** The send's `onError`: the form and the fee stay as they are. */
    method OnSendError(message: string) returns (alert: Alert)
      requires Valid()
      modifies this`isPending
      ensures Valid()
      ensures alert == Alert("Transaction Failed", OrDefault(message, SendFallback)) && alert.message != ""
      ensures !isPending
    {
      alert := Alert("Transaction Failed", OrDefault(message, SendFallback));
      isPending := false;
    }
  }

  /** After a successful send the cleared form keeps the Transfer button disabled. */
  lemma ClearedFormDisablesTransfer(balance: Option<Balance>, isPending: bool)
    ensures !TransferEnabled("", "", balance, isPending)
  {
  }
}
