# Transfer screen and configuration check of the Expo thirdweb example, in Dafny

This project models the logic of two parts of the example app:

- The **transfer screen** (`app/index.tsx`). The user enters a recipient
  address and an amount of the chain's native token, with paste, QR scan and
  MAX as helpers. Pressing Transfer runs a fixed chain of guards and then
  estimates the fee. The confirm dialog shows the fee, and Confirm sends the
  transaction. On success the form is cleared and an alert offers the
  transaction's page on the block explorer.
- The **root layout's configuration check** (`app/_layout.tsx`). It collects the
  environment variables that are unset, empty or still their `your_…`
  placeholder. In development it requires only the required variables; in
  production it requires all of them.

Modules:

- `Wrappers` (`wrappers.dfy`): `Option`, used for JavaScript's `null` and `undefined`.
- `Units` (`units.dfy`): the plain decimal numerals `^\d*\.?\d*$` and the wallet
  SDK's conversions. `ToWei` turns text into wei; `None` is the conversion
  throwing. `FromWei` renders wei as text. One token is 10^18 wei.
- `Validators` (`validators.dfy`):
  - `isValidAddress` and `isValidAmount`;
  - JavaScript's `String.prototype.trim`;
  - `hasSufficientBalance`.
- `TransferScreen` (`transfer_screen.dfy`):
  - the guard chain and the outcome of pressing Transfer (`Respond`);
  - the alerts and the two buttons' enabling predicates;
  - the explorer URL;
  - the class `Screen`, whose fields are the screen's state (`toAddress`,
    `amount`, `estFee`, `showConfirm`, `showScanner`, `isPending`) and
    whose methods are the handlers. Each method's `modifies` names the
    fields it sets, so every other field provably stays as it was.
- `EnvConfig` (`env_config.dfy`):
  - the two loops that build `missingVars`, as a method;
  - the placeholder rule;
  - `hasRequiredVars`, `hasAllVars` and `isValidConfig`.

Inputs:

- **Hooks.** The wallet hooks become a `Wallet` value: the connected account
  and the balance with its display text.
- **Estimation.** The gas price and gas estimation calls become an `Estimate`
  value: both numbers, or the message of the error thrown.
- **Sending.** The send mutation is split in two:
  - `ConfirmTransfer` starts it, and its pending flag is `isPending`;
  - `OnSendSuccess` / `OnSendError` are its callbacks.
- **Device input.** The clipboard text, the scanned data and the camera
  permission are parameters of their handlers.

## Model

| member | source | states |
|---|---|---|
| Validators.IsValidAddress | app/index.tsx:67-69 | defines `isValidAddress` as the pattern `^0x[a-fA-F0-9]{40}$`; its meaning is stated by `IsValidAddressIff` |
| Validators.IsValidAmount | app/index.tsx:71-73 | defines `isValidAmount`: the pattern `^\d*\.?\d*$` matches and `Number(s) > 0`; its meaning is stated by `IsValidAmountIff` |
| Validators.HasSufficientBalance | app/index.tsx:75-82 | defines `hasSufficientBalance`: false without a balance or with empty text, otherwise `toWei(amount) <= balance.value`; its meaning is stated by `SufficientBalanceExact` |
| Validators.Trim | app/index.tsx:126-136 | defines JavaScript's `trim` as dropping leading, then trailing white space; stated by `TrimStartSpec`, `TrimEndSpec` and `TrimEmptyIff` |
| Validators.JsNumber | app/index.tsx:72 | defines `Number(amount)` on a numeral: NaN for ".", 0 for the empty text, otherwise its exact decimal value; its use is stated by `IsValidAmountIff` |
| Validators.IsJsWhitespace | app/index.tsx:126-136 | defines the characters `trim` removes: ECMAScript white space and line terminators; stated by `TrimStartSpec`, `TrimEndSpec` and `TrimEmptyIff` |
| Validators.IsValidAddressIff | app/index.tsx:67-69 | an address is valid iff it has 42 characters, starts with "0x" and the other 40 are hexadecimal digits of either case; nothing else (no checksum) is checked |
| Validators.HexRunIff | app/index.tsx:68 | `[a-fA-F0-9]{n}` matches exactly the texts of length n made of hexadecimal digits |
| Validators.ParseNumeralIff | app/index.tsx:72 | the pattern `^\d*\.?\d*$` accepts exactly the texts made of digits with at most one '.' |
| Validators.IsValidAmountIff | app/index.tsx:71-73 | an amount is valid iff it is digits with at most one point and some digit is not zero (`Number(s) > 0`, with "." being NaN) |
| Validators.RejectedAmounts | app/index.tsx:71-73 | "", ".", "-1", "0" and "0.0" are not valid amounts |
| Validators.AcceptedAmounts | app/index.tsx:71-73 | ".5" and "1.5" are valid amounts |
| Validators.NonZeroDigitOfText | app/index.tsx:72 | the point of a numeral neither adds nor hides a non-zero digit, so positivity can be read off the text |
| Validators.TrimStartSpec | app/index.tsx:126 | the start of `trim` drops exactly the leading JavaScript white space |
| Validators.TrimEndSpec | app/index.tsx:126 | the end of `trim` drops exactly the trailing JavaScript white space |
| Validators.TrimEmptyIff | app/index.tsx:126-136 | `!text.trim()` holds iff every character of the text is white space |
| Validators.ValidAddressNotBlank | app/index.tsx:125-133 | a valid address is never blank after trimming |
| Validators.ValidAmountNotBlank | app/index.tsx:135-143 | a valid amount is never blank after trimming |
| Validators.SufficientBalanceExact | app/index.tsx:75-82 | with at most 18 fractional digits the balance check is false without a balance or with empty text, and otherwise compares the exact amount with the balance |
| Validators.ValidAmountIffPositiveWei | app/index.tsx:71-82 | with at most 18 fractional digits the conversion succeeds, and the amount is valid iff it is a positive number of wei |
| Validators.OneTokenCoversOne | app/index.tsx:75-82 | a balance of one token covers "1.0" |
| Validators.OneTokenShortOfMore | app/index.tsx:75-82 | a balance of one token does not cover "1.1" |
| Units.ToWei | app/index.tsx:78 | defines `toWei` as the conversion of text to units with 18 decimals, `None` for a throw; its meaning is stated by `ToWeiExact` |
| Units.FromWei | app/index.tsx:162 | defines `fromWei(x, 18)` as the rendering of x with 18 decimals; its meaning is stated by `FromWeiRoundTrip` |
| Units.ParseNumeral | app/index.tsx:72 | defines the test `^\d*\.?\d*$`, returning the digits before and after the point; stated by `ParseNumeralSound`, `ParseNumeralOfText` and `ParseNumeralIff` |
| Units.LeadingDigitsSpec | app/index.tsx:72 | the greedy `\d*` takes digits and stops at the first character that is not one |
| Units.ParseNumeralSound | app/index.tsx:72 | a recognised text is a well-formed numeral whose text is the input |
| Units.ParseNumeralOfText | app/index.tsx:72 | every well-formed numeral is recognised again from its text |
| Units.ToUnitsOfText | app/index.tsx:78 | text written from a numeral converts to that numeral's units |
| Units.NumeralUnitsExact | app/index.tsx:78 | with at most `decimals` fractional digits the conversion of a numeral is exact: units / 10^decimals is the numeral's value |
| Units.ToUnitsExact | app/index.tsx:78 | the same exactness stated on text |
| Units.ToWeiExact | app/index.tsx:78 | `toWei` on text with at most 18 fractional digits succeeds and gives exactly value × 10^18 |
| Units.SplitUnits | app/index.tsx:162 | splits units into whole tokens and a remainder below 10^decimals that add back up to the units |
| Units.FractionDigitsValue | app/index.tsx:162 | the rendered fractional digits are at most `decimals` digits and denote the remainder |
| Units.RenderingExact | app/index.tsx:162 | the rendering of an amount is a well-formed numeral with at most `decimals` fractional digits denoting that amount |
| Units.FromUnitsRoundTrip | app/index.tsx:162 | the rendered text parses, and converting it back gives the same units |
| Units.FromWeiRoundTrip | app/index.tsx:162 | `toWei(fromWei(x, 18)) == x` for every wei amount x |
| Units.WeiPerTokenValue | app/index.tsx:78 | 10^18 wei make one token |
| TransferScreen.Evaluate | app/index.tsx:121-146 | defines the six guard conditions, with `!x.trim()` as `Trim(x) == ""`; stated by `GuardsPassIff` and `TrimEmptyIff` |
| TransferScreen.FirstFailure | app/index.tsx:120-149 | defines the guard chain: the error of the first failing guard, in the handler's order; its meaning is stated by `FirstFailureIsFirst` and `NoFailureIff` |
| TransferScreen.Prepare | app/index.tsx:152-157 | defines `prepareTransaction({to, value: toWei(amount)})`, with `None` when `toWei` throws; stated by `PreparedTransactionIsCovered` |
| TransferScreen.FirstFailureIsFirst | app/index.tsx:120-149 | the chain reports error e iff e's guard fails and every earlier guard passes (connected, recipient present, recipient valid, amount present, amount valid, balance sufficient) |
| TransferScreen.NoFailureIff | app/index.tsx:120-149 | no error is reported iff no guard fails |
| TransferScreen.GuardsPassIff | app/index.tsx:120-149 | all guards pass iff the wallet is connected, address and amount are valid and the balance covers the amount; the two emptiness guards never decide on their own |
| TransferScreen.GuardMessage | app/index.tsx:122-147 | defines each guard's alert text; `OutcomeAlert` states that every rejection shows its guard's message with the title "Error" |
| TransferScreen.GuardMessageInjective | app/index.tsx:122-147 | no two guards show the same message |
| TransferScreen.OutcomeAlert | app/index.tsx:120-166 | an alert is shown for every outcome except the confirm dialog opening; a rejection shows "Error" with its guard's message; an estimation failure shows "Estimation Failed" with the error's message, or "Unable to estimate transaction fee" when it is empty, so its text is never empty |
| TransferScreen.OrDefault | app/index.tsx:165 | `message \|\| fallback` is a non-empty message kept verbatim, or the fallback when the message is empty |
| TransferScreen.Respond | app/index.tsx:120-166 | the outcome of pressing Transfer; when the dialog opens its fee text is not empty |
| TransferScreen.RespondRejectsIff | app/index.tsx:120-149 | pressing Transfer is rejected iff some guard fails, and the error reported is a failing guard's, every earlier guard passing |
| TransferScreen.RejectionIgnoresEstimate | app/index.tsx:120-149 | when a guard fails the outcome does not depend on the estimate: no estimation is made |
| TransferScreen.RespondConfirmsIff | app/index.tsx:120-166 | the confirm dialog opens iff all guards pass and the estimate succeeded; then the transaction goes to the entered address, its value is covered by the balance, and the fee text converts back to gas × gasPrice |
| TransferScreen.RespondEstimationFailed | app/index.tsx:151-166 | an estimation failure is reported, with its own message, iff the wallet is connected, address and amount are valid, the balance covers the amount and the estimate failed |
| TransferScreen.FeeText | app/index.tsx:159-162 | the fee text `fromWei(gas * gasPrice, 18)` is never empty |
| TransferScreen.FeeTextRoundTrip | app/index.tsx:159-162 | the fee text converts back to exactly gas × gasPrice wei |
| TransferScreen.PreparedTransactionIsCovered | app/index.tsx:146-157 | once the guards pass, preparing the transaction cannot fail, and it goes to a valid address with a value at most the balance |
| TransferScreen.PreparedTransactionIsPositive | app/index.tsx:141-157 | once the guards pass, an amount with at most 18 fractional digits gives a positive value |
| TransferScreen.TransferEnabled | app/index.tsx:358-363 | defines the Transfer button's `disabled` expression, negated; its meaning is stated by `TransferEnabledIff` |
| TransferScreen.ConfirmEnabled | app/index.tsx:478 | defines the Confirm button's `disabled` expression, negated; its meaning is stated by `Screen.ConfirmEnabledIff` |
| TransferScreen.TransferEnabledIff | app/index.tsx:358-363 | with a wallet connected, the Transfer button is enabled iff pressing it would pass every guard and nothing is pending |
| TransferScreen.Submit | app/index.tsx:171-176 | defines what Confirm does on the current fields: send the prepared transaction, or throw when `toWei` throws |
| TransferScreen.SubmitIff | app/index.tsx:171-176 | Confirm throws iff the amount does not convert; otherwise it sends the amount in wei to the entered address |
| TransferScreen.ConfirmSendsEstimatedTransaction | app/index.tsx:152-176 | confirming the fields the dialog was opened for sends the transaction the dialog was opened with, and never throws |
| TransferScreen.SuccessAlert | app/index.tsx:181-183 | defines the success alert, whose text carries the hash; stated by `Screen.OnSendSuccess` |
| TransferScreen.ExplorerUrl | app/index.tsx:189 | the explorer URL is exactly the explorer's `/tx/` prefix followed by the hash |
| TransferScreen.ExplorerUrlInjective | app/index.tsx:189 | different hashes give different explorer URLs |
| TransferScreen.MaxAmountIsCovered | app/index.tsx:84-88 | assuming the balance's display text is `fromWei` of its value, MAX fills in an amount the balance covers, and it is a valid amount iff the balance is not zero |
| TransferScreen.ClearedFormDisablesTransfer | app/index.tsx:197-198 | after the form is cleared (empty recipient and amount) the Transfer button is disabled |
| TransferScreen.Screen.constructor | app/index.tsx:40-46 | the screen starts with empty fields, no fee, no dialog, no scanner and nothing pending |
| TransferScreen.Screen.ConfirmEnabledIff | app/index.tsx:478 | the Confirm button is enabled iff a fee is shown and nothing is pending |
| TransferScreen.Screen.EditRecipient | app/index.tsx:288 | typing sets only the recipient; the fee and the dialog stay |
| TransferScreen.Screen.EditAmount | app/index.tsx:323 | typing sets only the amount; the fee and the dialog stay |
| TransferScreen.Screen.HandleMax | app/index.tsx:84-88 | the amount becomes the balance's display text when there is a balance, and is otherwise unchanged; nothing else changes |
| TransferScreen.Screen.HandlePasteAddress | app/index.tsx:90-97 | the recipient becomes the clipboard text iff it is a valid address; otherwise it is unchanged and the "Invalid Address" alert is shown; nothing else changes |
| TransferScreen.Screen.HandleScanAddress | app/index.tsx:99-109 | the scanner opens iff permission is granted; a pending or denied permission gives its alert; nothing else changes |
| TransferScreen.Screen.HandleBarCodeScanned | app/index.tsx:111-118 | the scanner always closes; the recipient becomes the data iff it is a valid address, otherwise the "Invalid QR Code" alert is shown |
| TransferScreen.Screen.CloseScanner | app/index.tsx:499 | the scanner closes and nothing else changes |
| TransferScreen.Screen.HandleTransfer | app/index.tsx:120-166 | the outcome is `Respond`'s on the current fields; only a successful estimate changes state, showing the fee and opening the dialog; the fee shown is never empty |
| TransferScreen.Screen.DismissConfirm | app/index.tsx:444-455 | the dialog closes and the fee stays |
| TransferScreen.Screen.ConfirmTransfer | app/index.tsx:169-178 | the dialog closes; the result is `Submit` on the current recipient and amount, so the transaction sent is built from them, or the conversion throws; the send is pending iff one was sent |
| TransferScreen.Screen.OnSendSuccess | app/index.tsx:179-201 | the success alert carries the hash, the explorer URL is built from it, recipient and amount become empty, the fee is cleared and nothing is pending |
| TransferScreen.Screen.OnSendError | app/index.tsx:205-207 | the failure alert shows the error's message or "Unknown error occurred"; recipient, amount and fee are unchanged |
| EnvConfig.ToLower | app/_layout.tsx:37 | defines `toLowerCase` on ASCII names; stated by `ToLowerSpec` |
| EnvConfig.LastSegment | app/_layout.tsx:37 | defines `split('_').slice(-1)[0]`; stated by `LastSegmentSpec` |
| EnvConfig.RequiredOnly | app/_layout.tsx:48 | defines `filter(v => v.required)`; stated by `HasRequiredVarsIff` |
| EnvConfig.Placeholder | app/_layout.tsx:37 | defines the placeholder `your_` followed by the key's last `_`-segment in lower case; stated by `PlaceholderOfSegment` |
| EnvConfig.IsMissing | app/_layout.tsx:37-38 | defines `!value \|\| value === placeholder`: unset, empty or the placeholder; stated by `MissingEntriesMembership` |
| EnvConfig.MissingEntries | app/_layout.tsx:36-46 | defines what one loop pushes, in visiting order; stated by `MissingEntriesMembership`, `MissingEntriesLength` and `MissingEntriesFlag` |
| EnvConfig.HasRequiredVars | app/_layout.tsx:48 | defines `hasRequiredVars` as the filter for required entries being empty; stated by `HasRequiredVarsIff` |
| EnvConfig.HasAllVars | app/_layout.tsx:49 | defines `hasAllVars` as `missingVars` being empty; stated by `NoneMissingIff` and `AllVarsImpliesRequiredVars` |
| EnvConfig.IsValidConfig | app/_layout.tsx:50-51 | defines `isValidConfig`: `hasRequiredVars` in development, `hasAllVars` otherwise; stated by `ValidConfigIff` |
| EnvConfig.CollectMissingVars | app/_layout.tsx:29-46 | the loops' result is the missing required variables, flagged required, followed by the missing optional ones, each in the order of its map |
| EnvConfig.MissingEntriesMembership | app/_layout.tsx:36-46 | a variable is recorded iff it is missing (unset, empty or its placeholder), and with its loop's flag |
| EnvConfig.MissingEntriesLength | app/_layout.tsx:36-46 | each loop records at most one entry per variable |
| EnvConfig.MissingEntriesFlag | app/_layout.tsx:36-46 | every entry a loop records carries that loop's `required` flag |
| EnvConfig.MissingVarsShape | app/_layout.tsx:29-46 | `missingVars` has at most as many entries as there are variables, and every required entry comes before every optional one |
| EnvConfig.NoneMissingIff | app/_layout.tsx:36-46 | a loop records nothing iff none of its variables is missing |
| EnvConfig.ToLowerSpec | app/_layout.tsx:37 | `toLowerCase` keeps the length and lowers each character |
| EnvConfig.LastSegmentSpec | app/_layout.tsx:37 | `split('_').slice(-1)[0]` is the suffix without '_' that is the whole key or follows its last '_' |
| EnvConfig.PlaceholderOfSegment | app/_layout.tsx:37 | a key whose last '_' is followed by a segment has the placeholder `your_` and that segment in lower case |
| EnvConfig.ClientIdPlaceholder | app/_layout.tsx:31-37 | the placeholder of `EXPO_PUBLIC_THIRDWEB_CLIENT_ID` is "your_id" |
| EnvConfig.HasRequiredVarsIff | app/_layout.tsx:48 | `hasRequiredVars` holds iff no entry is required |
| EnvConfig.AllVarsImpliesRequiredVars | app/_layout.tsx:48-51 | `hasAllVars` implies `hasRequiredVars`, so a production-valid configuration is development-valid, and nothing missing is valid in both modes |
| EnvConfig.ValidConfigIff | app/_layout.tsx:29-51 | the configuration is valid iff no required variable is missing and, outside development, no optional one is |
| EnvConfig.SingleRequiredVarValidIff | app/_layout.tsx:29-51 | with one required variable and no optional ones, the configuration is valid iff that variable is not missing |
| EnvConfig.AppConfigValidIff | app/_layout.tsx:25-51 | the app's configuration is valid, in either mode, iff the client id is set, not empty and not "your_id" |

## Left out

- Rendering: layout, styles, theming, the modals' appearance, the avatar and the shortened address. The splash screen and font loading gate of the layout are also out. `components/ThemedButton.tsx` is not part of this model; its only logic is `disabled || loading`.
- `app/(tabs)/index.tsx`, the simpler transfer screen without fee estimation, is not modelled.
- The wallet SDK:
  - `prepareTransaction`, `getGasPrice`, `estimateGas` and `sendTransaction` are foreign calls. Their results are the `Estimate` parameter and the `OnSendSuccess` / `OnSendError` callbacks.
  - The balance hook, its 5-second polling and the refetch 2 seconds after a send are not modelled; the balance is a parameter.
  - `disconnect` and the connect modal are not modelled.
  - `constants/thirdweb.ts` is not part of this model.
- Asynchrony: each handler runs to completion at once, with the awaited results as parameters.
- Device I/O: the clipboard, the camera, the permission request and `Linking.openURL` are parameters or not modelled. So is the alert shown when the explorer cannot be opened.
- `onBarCodeScanned` is attached only while the scanner is shown. `HandleBarCodeScanned` does not require that.
- `Units.ToWei` is exact only up to 18 fractional digits, and no contract claims more. Beyond that the definition rounds half up at the 18th digit, a choice of this model; the SDK's behaviour there is not stated.
- `Units.FromWei` writes the shortest text: whole tokens, then a point and the fraction without trailing zeros. The round trip is proved; the SDK's exact formatting is not.
- `Validators.IsValidAmount`: `Number(amount) > 0` is modelled on exact decimals as "some digit is not zero". Floating-point underflow of extremely long fractions is not modelled.
- `EnvConfig.ToLower` lowers only ASCII capitals, while JavaScript lowers all of Unicode. Environment variable names are ASCII.
- `Object.entries` order is modelled as the order of the given sequence. JavaScript puts integer-like keys first; environment variable names are not integer-like.
- `TransferScreen.Screen.HandleTransfer`:
  - A `toWei` failure inside its `try` block would also show "Estimation Failed". That branch cannot be reached, because the balance guard already converted the same text. `PreparedTransactionIsCovered` proves this, and the model relies on it.
  - The guards' alerts are the `OutcomeAlert` of the outcome, with the texts of `GuardMessage`.
- Units.ToWei: that every text outside the pattern `^\d*\.?\d*$` (such as "-1", " 1" or "1.2.3") makes the conversion throw is this model's choice; the SDK's parser is not part of this model and may accept some of them. Only `ConfirmTransfer` can see such text, because every other conversion follows an `isValidAmount` check.
- TransferScreen.Screen.ConfirmTransfer: `toWei(amount)` there is outside any `try`, so when it throws the exception escapes the handler uncaught, after the dialog closed, with no alert and nothing pending. The model returns `ConversionThrew` for it and does not model what the runtime does with an uncaught exception. The case is reachable: the amount can be edited while `handleTransfer` awaits the gas price and the estimate, before the dialog opens.
- TransferScreen.MaxAmountIsCovered: assumes the balance's display text is `FromWei` of its value. The SDK's display formatting is not modelled; a display text rounded up would not be covered by the balance.

The code does not do the following, and neither does the model:

- clear `estFee` or close the dialog when the recipient or the amount is edited;
- clear `estFee` when the dialog is dismissed;
- send the fields the fee was estimated for: `ConfirmTransfer` builds the transaction from the fields as they are at confirm time.
