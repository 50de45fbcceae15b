# DPBO ledgers in Dafny

A functional model of the two ledgers of the DPBO C++ program and the records
they are built from.

The **bank** (`Bank`) keeps:
- accounts (`BankCustomer`) in a `std::map` keyed by account number;
- an insertion-ordered transfer log (`BankTransaction`).

It accepts all-or-nothing transfers and answers four analytics queries:
- recent transfers;
- dormant accounts;
- the most active accounts;
- a summary report.

The **store** (`Store`) keeps:
- a catalogue of `Item`s keyed by id;
- registered buyers and sellers;
- a purchase log (`Transaction`).

It sells one unit per accepted pending purchase and answers time-window,
status, best-seller and "most active today" queries.

**Sellers** keep their own id-unique catalogue and purchase log, with monthly
and loyalty analytics. **Buyers** are linked to a bank account and keep a
purchase log with spending and cash-flow analytics. Both extend a `User` with
a login flag and a one-line description. Items, purchases, transfers and
accounts have hand-written binary record codecs, and both ledgers persist
themselves as one blob. Users, buyers and sellers have no codec and are not
persisted.

Modules follow the DPBO files:

| module | file | source |
|---|---|---|
| `Items` | item.dfy | item.h |
| `Purchases` | transaction.dfy | transaction.h |
| `Transfers` | bank_transaction.dfy | bank_transaction.h |
| `Customers` | bank_customer.dfy | bank_customer.h |
| `Banks` | bank.dfy | bank.h, bank.cpp |
| `Users` | user.dfy | user.h |
| `Buyers` | buyer.dfy | buyer.h, buyer.cpp |
| `Sellers` | seller.dfy | seller.h, seller.cpp |
| `Stores` | store.dfy | store.h |

Shared machinery lives in its own modules:
- `Bytes`: fixed-width little-endian integers, length-prefixed strings and count-prefixed lists.
- `Ordering`: `std::map` iteration order and the rebuild of a map from saved records.
- `Seqs`: `copy_if`, `count_if`, sums, and `sort` followed by `resize`.
- `Clock`: ages in whole hours.
- `Wrappers`: `Option`.

Modelling conventions:
- **Time.** Time is an explicit `now` argument, in `system_clock` ticks (nanoseconds, libstdc++'s tick period). An age in hours is `duration_cast<hours>`, which is integer division truncating toward zero. Windows are "age `<= days * 24`" (`Clock.WithinDays`), "age `<= 24`" for today, "age `<= 720`" for a month, and "age `>= 720`" for dormancy.
- **Money.** Money is an integer number of cents.
- **Mutation.** A mutating member becomes a function returning the new state, paired with the C++ method's `bool` result where there is one.
- **Pointers.** A null pointer returned by a lookup becomes `None`.
- **Buyer's bank account.** DPBO's `BankCustomer*` becomes an account number. It is resolved in the `Bank` that owns the account, and money operations return the updated bank.
- **Codec.** The codec works on `seq<byte>`:
  - little-endian;
  - int32 ids, lengths and counts of `int` type;
  - 8-byte tick counts and money;
  - 8-byte `size_t` collection counts.
  Decoders return `None` on a short buffer, a negative string length, or an unknown status ordinal.

Behaviour kept as the code has it:
- `Bank::processTransaction` accepts a transfer of a zero or negative amount whenever both accounts exist and the sender's balance is at least the amount, which always holds for a non-negative balance. Such a transfer is logged and reported as a success, although `withdraw` and `deposit` ignore the amount and no money moves.
- `Store::getPendingTransactions` selects status PAID, not PENDING.
- `getMostActiveUsers(n)` and `getMostSoldItems(n)` compare a `size_t` with an `int`, so a negative `n` keeps every entry.
- Purchase statuses follow no lifecycle: `setStatus` accepts any status after any other.

## Model

| member | source | states |
|---|---|---|
| Bytes.I32RoundTrip | DPBO/transaction.h:59-62 | an int32 field written as 4 bytes reads back as the same value, leaving the following bytes untouched |
| Bytes.I64RoundTrip | DPBO/transaction.h:66-67 | an 8-byte tick count (or money value) reads back unchanged, leaving the following bytes untouched |
| Bytes.CountRoundTrip | DPBO/bank_customer.h:77-78 | an 8-byte `size_t` collection count reads back unchanged |
| Bytes.CutAtNul | DPBO/item.h:76-79 | rebuilding a string from a NUL-terminated buffer keeps exactly the prefix before the first NUL byte |
| Bytes.CutAtNulIdentity | DPBO/bank_transaction.h:62-65 | that cut leaves a string unchanged if and only if it has no NUL byte |
| Bytes.EncodeString | DPBO/bank_transaction.h:39-41 | a string is written as an int32 length and then its bytes: 4 + length bytes |
| Bytes.StringRoundTrip | DPBO/bank_transaction.h:60-65 | reading a written string gives back its prefix before the first NUL, so it comes back whole if and only if it is NUL-free |
| Bytes.ListRoundTrip | DPBO/bank_customer.h:77-81 | a count-prefixed list of records reads back as the same list in the same order, provided each record does |
| Ordering.SortedStrings | DPBO/bank.cpp:58-60 | a string-keyed map is walked in strictly ascending byte-wise key order, visiting every key exactly once |
| Ordering.SortedInts | DPBO/store.h:54-56 | an int-keyed map is walked in strictly ascending key order, visiting every key exactly once |
| Ordering.CollectSortedValues | DPBO/bank.cpp:27-31 | inserting saved accounts one by one under their own account numbers rebuilds the saved map exactly |
| Ordering.CollectSortedIntValues | DPBO/store.h:29-33 | inserting saved items one by one under their own ids rebuilds the saved catalogue exactly |
| Seqs.FilterIsSubsequence | DPBO/buyer.h:52-53 | `copy_if` keeps the selected elements in their original relative order |
| Seqs.FilterCounts | DPBO/store.h:79-80 | `copy_if` keeps every occurrence of a selected element, repeats included, and nothing else |
| Seqs.FilterMonotone | DPBO/bank.cpp:116-122 | a weaker selection condition keeps everything a stronger one keeps, in the same order |
| Seqs.SortDesc | DPBO/seller.h:80-83 | sorting with a "greater than" comparator yields a permutation of the input that is non-increasing by the key |
| Seqs.KeepFirst | DPBO/bank.cpp:151-153 | `resize(n)` after the size check keeps the first `n` entries, or all of them when `n` is negative or large |
| Seqs.TopByRank | DPBO/bank.cpp:147-153 | sort-then-truncate returns the right number of entries, sorted, drawn from the input, and no dropped entry outranks a kept one |
| Clock.HoursSince | DPBO/transaction.h:87 | the age in hours is the tick difference divided by an hour, truncated toward zero, on either side of `now` |
| Clock.WithinDaysMonotone | DPBO/transaction.h:85-89 | a timestamp within `d1` days is within any `d2 >= d1` days |
| Items.NewItem | DPBO/item.h:22-25 | a new item has sold nothing, so all its units are in stock, and is stamped as restocked now |
| Items.SetPrice | DPBO/item.h:38 | only the price changes |
| Items.SetStock | DPBO/item.h:39-42 | the stock is overwritten and the restock time refreshed, with nothing else changed |
| Items.DecreaseStock | DPBO/item.h:45-52 | the sale succeeds if and only if the stock covers the amount; success moves the amount from stock to sold, and failure changes nothing |
| Items.DecreaseStockConserves | DPBO/item.h:45-52 | a non-negative sale keeps stock non-negative and preserves stock plus sold |
| Items.IncreaseStock | DPBO/item.h:54-57 | stock grows by exactly the amount, the restock time is refreshed, and the sold count stays |
| Items.Encode | DPBO/item.h:60-70 | an item occupies 4+4+len(name)+8+4+4+8 bytes |
| Items.RoundTrip | DPBO/item.h:60-88 | an item with in-range fields and a NUL-free name reads back unchanged |
| Purchases.StatusOf | DPBO/transaction.h:76-78 | exactly the ordinals 0..3 name a status, each one the status declared at that position |
| Purchases.StatusOrdinalRoundTrip | DPBO/transaction.h:64-65 | the ordinal written for a status reads back as that status |
| Purchases.NewPurchase | DPBO/transaction.h:35-43 | a new purchase is PENDING, stamped now, and carries the given ids and amount |
| Purchases.SetStatus | DPBO/transaction.h:55 | any status may replace any other, and only the status changes |
| Purchases.SetStatusUndo | DPBO/transaction.h:55 | setting the previous status back restores the record exactly |
| Purchases.Encode | DPBO/transaction.h:58-68 | every purchase occupies exactly 36 bytes |
| Purchases.RoundTrip | DPBO/transaction.h:58-83 | a purchase with in-range fields reads back unchanged |
| Transfers.NewTransfer | DPBO/bank_transaction.h:22-25 | a new transfer carries the given fields and is stamped now |
| Transfers.Encode | DPBO/bank_transaction.h:36-55 | a transfer occupies 4+(4+len(from))+(4+len(to))+8+8+(4+len(description)) bytes |
| Transfers.DecodeEncode | DPBO/bank_transaction.h:57-90 | any writable transfer reads back with each of its three strings cut at its first NUL |
| Transfers.RoundTripExactlyWhenNulFree | DPBO/bank_transaction.h:62-65 | a writable transfer reads back unchanged if and only if its strings are NUL-free |
| Transfers.RoundTrip | DPBO/bank_transaction.h:36-90 | a storable transfer reads back unchanged |
| Customers.NewCustomer | DPBO/bank_customer.h:25-28 | a new account has balance 0, no history, and activity now |
| Customers.Deposit | DPBO/bank_customer.h:39-44 | a positive amount is credited and marks activity; any other amount changes nothing |
| Customers.Withdraw | DPBO/bank_customer.h:46-53 | reports true if and only if the amount is positive and covered; only then is it debited, otherwise nothing changes |
| Customers.WithdrawKeepsBalanceNonNegative | DPBO/bank_customer.h:46-53 | a withdrawal never overdraws a non-negative balance |
| Customers.WithdrawThenDeposit | DPBO/bank_customer.h:39-53 | depositing what was withdrawn restores the account, apart from the activity time |
| Customers.AddTransaction | DPBO/bank_customer.h:55-58 | the history grows by exactly that record at its end, and activity is marked |
| Customers.Encode | DPBO/bank_customer.h:61-82 | an account occupies its fixed fields, the 8-byte history count and exactly the bytes of its encoded transfers |
| Customers.RoundTrip | DPBO/bank_customer.h:61-118 | an account with in-range fields, NUL-free strings and storable history reads back unchanged, history included |
| Banks.NewBank | DPBO/bank.cpp:76-79 | a constructed bank holds the given identity fields and, before loading, no accounts or transfers |
| Banks.SetId | DPBO/bank.h:37 | only the id changes |
| Banks.SetName | DPBO/bank.h:38 | only the name changes |
| Banks.SetAddress | DPBO/bank.h:39 | only the address changes |
| Banks.SetPhoneNumber | DPBO/bank.h:40 | only the phone number changes |
| Banks.CustomerList | DPBO/bank.cpp:141-144 | the accounts listed in map order: entry `i` is the account under the `i`-th smallest account number, so each account appears exactly once |
| Banks.AddCustomer | DPBO/bank.cpp:84-91 | inserts and reports true if and only if the account number is absent; otherwise nothing changes |
| Banks.AddCustomerIdempotent | DPBO/bank.cpp:84-91 | adding the same account again reports false and changes nothing |
| Banks.AddCustomerPreservesValid | DPBO/bank.cpp:85-87 | every account stays filed under its own number with a non-negative balance |
| Banks.FindCustomer | DPBO/bank.cpp:93-96 | finds the account if and only if its number is a key, else none |
| Banks.FindAfterAdd | DPBO/bank.cpp:84-96 | after adding, the number is found, and a fresh insert is found as given |
| Banks.ProcessTransaction | DPBO/bank.cpp:99-110 | succeeds if and only if both accounts exist and the sender's balance covers the amount; see the note below |
| Banks.TransferConservesTotal | DPBO/bank.cpp:103-106 | the sum of all balances is the same after any transfer attempt |
| Banks.TransferPreservesValid | DPBO/bank.cpp:103-106 | a transfer keeps every account filed under its own number and never overdraws one |
| Banks.RecentTransactions | DPBO/bank.cpp:112-124 | the transfers at most `days*24` whole hours old, in log order, each as often as it is logged |
| Banks.RecentTransactionsMonotone | DPBO/bank.cpp:112-124 | a wider window returns everything a narrower one does, in the same order |
| Banks.DormantAccounts | DPBO/bank.cpp:126-138 | exactly the accounts idle for at least 720 whole hours, in map order, each as often as it is listed |
| Banks.DormantInKeyOrder | DPBO/bank.cpp:130-136 | the dormant accounts come in strictly ascending account-number order |
| Banks.CountTodayAfterTransfer | DPBO/bank.cpp:157-166 | logging a transfer raises an account's count today by one exactly when the transfer is at most 24 hours old and sent or received by that account |
| Banks.MostActiveUsers | DPBO/bank.cpp:140-155 | see the note below |
| Banks.Tally | DPBO/bank.cpp:195-197 | each listed account is paired with its name and its number of transfers today |
| Banks.TopActive | DPBO/bank.cpp:193-197 | the busiest five accounts (`MostActiveUsers(5)`), each row that account's name and its number of transfers today; counts non-increasing and bounded by the log size |
| Banks.GenerateReport | DPBO/bank.cpp:168-200 | the report's figures exactly: the account count, the number of dormant accounts, the number and the total amount of transfers at most 7 days old, and the busiest-five rows |
| Banks.ReportAfterTransfer | DPBO/bank.cpp:177-189 | an accepted transfer leaves the account count alone and adds itself to the weekly count and weekly total exactly when it is at most 7 days old |
| Banks.SaveLoadRoundTrip | DPBO/bank.cpp:10-71 | saving and loading a storable bank restores id, name, every account and the transfer log; address and phone come from the constructor |
| Users.NewUser | DPBO/user.h:17 | a new user is logged out |
| Users.SetId | DPBO/user.h:26 | only the id changes |
| Users.SetName | DPBO/user.h:27 | only the name changes |
| Users.Login | DPBO/user.h:30-34 | any password is accepted: the result is true, the user is logged in as of now, and nothing else changes |
| Users.Logout | DPBO/user.h:36 | only the login flag changes, to false |
| Users.LoginLogout | DPBO/user.h:30-36 | logging in and out restores a logged-out user apart from the login time |
| Users.IntToString | DPBO/user.h:39 | `to_string(int)` starts with '-' exactly for negative numbers, and the rest is a non-empty digit string with no leading zero (so no comma) |
| Users.IntToStringRoundTrip | DPBO/user.h:39 | reading the decimal text back gives the number |
| Users.InfoRoundTrip | DPBO/user.h:39 | "ID: <id>, Name: <name>" determines both the id and the name, whatever the name |
| Buyers.NewBuyer | DPBO/buyer.h:21 | a new buyer is logged out, unlinked and has no purchases |
| Buyers.CreateBankAccount | DPBO/buyer.cpp:12 | the buyer is linked to the given account, or unlinked for a null one, and nothing else changes |
| Buyers.Deposit | DPBO/buyer.h:29-35 | succeeds if and only if an account is linked and the amount is positive; only that account changes, its balance growing by the amount and its activity time set to now, otherwise nothing changes |
| Buyers.Withdraw | DPBO/buyer.h:37-43 | succeeds if and only if linked, positive and covered; only that account changes, its balance dropping by the amount and its activity time set to now, otherwise nothing changes |
| Buyers.GetBalance | DPBO/buyer.h:45 | the linked balance, or 0 when unlinked |
| Buyers.MoneyMovesTotal | DPBO/buyer.h:29-43 | a successful deposit raises the bank's total holdings by exactly the amount, and a withdrawal lowers them by it |
| Buyers.DepositThenWithdraw | DPBO/buyer.h:29-43 | in a bank with no overdrawn account, withdrawing what was just deposited succeeds and restores every balance |
| Buyers.AddTransaction | DPBO/buyer.cpp:30 | exactly one record is appended |
| Buyers.GetTransactions | DPBO/buyer.h:50-55 | exactly the purchases with that status, in log order, each as often as it is logged |
| Buyers.GetTransactionsPartition | DPBO/buyer.cpp:32-37 | the four status lists together are exactly as long as the log |
| Buyers.TotalSpendingAfterAdd | DPBO/buyer.h:57-68 | a logged purchase adds its amount to the spending exactly when it is inside the window and not CANCELED |
| Buyers.CashFlow | DPBO/buyer.h:70-95 | one entry per distinct exact timestamp, strictly ascending, each paired with the total amount stamped then |
| Buyers.CashFlowTotal | DPBO/buyer.h:86-91 | the entries add up to the total of all purchase amounts |
| Sellers.NewSeller | DPBO/seller.h:28 | a new seller has no items and no purchases |
| Sellers.IndexOfItem | DPBO/seller.h:42-43 | `find_if` on the id gives the first matching position, or the end |
| Sellers.AddItem | DPBO/seller.h:31-39 | appends and reports true if and only if no listed item has that id; otherwise nothing changes |
| Sellers.AddItemKeepsIdsUnique | DPBO/seller.h:31-39 | the catalogue never gets two items with the same id |
| Sellers.DeleteItem | DPBO/seller.h:41-49 | reports true if and only if the id is listed; it removes the first match and keeps the others in order, otherwise nothing changes |
| Sellers.DeleteItemRemovesOnlyThatId | DPBO/seller.h:41-49 | with unique ids, exactly the items with other ids remain, still unique |
| Sellers.DeleteAfterAdd | DPBO/seller.cpp:12-30 | deleting a freshly added item succeeds and restores the seller |
| Sellers.RestockItem | DPBO/seller.h:51-59 | reports true if and only if the id is listed; only the first item with that id changes, its stock growing by the quantity and its restock time refreshed |
| Sellers.SetItemPrice | DPBO/seller.h:61-69 | reports true if and only if the id is listed; only that item's price changes |
| Sellers.AddTransaction | DPBO/seller.h:72 | exactly one record is appended and nothing else changes |
| Sellers.MonthlyItemSalesAfterAdd | DPBO/seller.h:130-139 | a logged purchase adds one to an item's monthly sales exactly when it is a COMPLETED sale of that item at most 720 hours old |
| Sellers.MonthlyItemSalesOnlyCompleted | DPBO/seller.cpp:64-73 | without COMPLETED purchases every item's monthly sales are zero |
| Sellers.MonthlyPopularItems | DPBO/seller.h:75-86 | a permutation of the catalogue, non-increasing by monthly sales |
| Sellers.CompletedBuyers | DPBO/seller.h:93-99 | the buyers collected are exactly those with a COMPLETED purchase |
| Sellers.LoyalCustomers | DPBO/seller.h:88-119 | every buyer with a COMPLETED purchase exactly once, and nobody else, ordered by completed count and then completed total, both descending |
| Sellers.LoyalCustomersHavePurchases | DPBO/seller.h:93-99 | everyone listed has at least one COMPLETED purchase |
| Sellers.InfoRoundTrip | DPBO/seller.h:122-127 | the description ends with the item count and the purchase count on their own lines, and both can be read back |
| Stores.EmptyStore | DPBO/store.h:70 | before loading, the store is empty |
| Stores.ItemList | DPBO/store.h:93-95 | the items listed in map order: entry `i` is the item under the `i`-th smallest id, so each item appears exactly once |
| Stores.AddItem | DPBO/store.h:150-156 | inserts and reports true if and only if the id is absent; otherwise nothing changes |
| Stores.AddItemIdempotent | DPBO/store.h:150-156 | adding the same item again reports false and changes nothing |
| Stores.AddItemPreservesValid | DPBO/store.h:150-156 | every item stays filed under its own id with non-negative stock |
| Stores.FindItem | DPBO/store.h:145-148 | finds the item if and only if its id is a key, else none |
| Stores.ProcessTransaction | DPBO/store.h:133-142 | accepts if and only if the purchase is PENDING and its item exists with stock of at least 1; that item sells one unit and the purchase is appended with its status unchanged, and a refusal changes nothing |
| Stores.ProcessTransactionPreservesValid | DPBO/store.h:133-142 | a sale never makes stock negative or moves an item |
| Stores.ProcessTransactionSellsOne | DPBO/store.h:134-139 | the catalogue's total sold count rises by one for an accepted sale and not at all for a refusal |
| Stores.TransactionsInLastDays | DPBO/store.h:75-82 | the purchases within `days` days, in log order, each as often as it is logged |
| Stores.TransactionsInLastDaysMonotone | DPBO/store.h:75-82 | a wider window returns everything a narrower one does, in the same order |
| Stores.PendingTransactions | DPBO/store.h:84-89 | exactly the PAID purchases, in log order, each as often as it is logged |
| Stores.ProcessedLogHasNoPaid | DPBO/store.h:134-137 | a log with no PAID purchase still has none after a sale step, which only logs PENDING purchases |
| Stores.MostSoldItems | DPBO/store.h:91-104 | `min(count, catalogue size)` items (all of them for a negative count), non-increasing by sold count, and no item left out sold more than one kept |
| Stores.CountTodayAfterSale | DPBO/store.h:159-168 | an accepted sale raises a user's count today by one exactly when it is that user's purchase (as buyer or as seller) and at most 24 hours old |
| Stores.FirstMax | DPBO/store.h:114-120 | the scan keeps the first position with the largest positive count, and none when every count is zero |
| Stores.TopKey | DPBO/store.h:114-128 | over map keys in ascending order: the smallest key whose count is maximal and positive, and none when every count is zero |
| Stores.MostActiveUsersToday | DPBO/store.h:106-131 | the top buyer and the top seller by purchases today, each counted by the user's own id, with ties going to the smallest key and none when nobody has a purchase today |
| Stores.SaveLoadRoundTrip | DPBO/store.h:23-67 | saving and loading a storable store restores the catalogue and the log; buyers and sellers are not persisted |

Two rows need more room than the table allows.

`Banks.ProcessTransaction`:
- The result is true if and only if both accounts exist and the sender's balance is at least the amount.
- On failure nothing changes.
- On success the transfer is appended to the log.
- Every account keeps its key and its history.
- Accounts other than the two parties are untouched.
- For a positive amount between distinct accounts, the sender loses exactly the amount and the receiver gains it. Both get activity time `now`, and nothing else about them changes.
- A positive transfer to oneself leaves the balance as it was and only sets the activity time to `now`.
- A non-positive amount leaves every account as it was.

`Banks.MostActiveUsers`:
- It returns `min(n, number of accounts)` accounts, or all of them for a negative `n`.
- They are drawn from the bank.
- They are non-increasing by the number of transfers today that each account sent or received.
- No account left out has more transfers today than one kept.

## Left out

- `main.cpp`: the interactive menu is console I/O only.
- File streams and the constructor/destructor load and save: they are replaced by pure `Save`/`Load` over byte sequences. A missing file, which leaves the constructed state, is not modelled.
- Floating point: prices, amounts and balances are integers (cents). The 8-byte `double` slot in every record is written as a little-endian int64 of that integer, not as an IEEE-754 bit pattern.
- Host layout: native endianness and sizes are fixed as little-endian, 4-byte `int`, 8-byte `size_t` and 8-byte tick counts. The tick period is taken as one nanosecond (libstdc++); libc++ counts microseconds and MSVC 100 ns, which changes how many ticks make an hour.
- Unchecked decoding: the C++ code never checks for truncated input or negative lengths, and a bad length is undefined behaviour. Decoders here reject those inputs, and round trips are stated only for storable values.
- Purchases.Decode: a status ordinal outside 0..3 is rejected, whereas `static_cast<TransactionStatus>` in the C++ code accepts any `int` and yields an enumerator-less value.
- Bytes.StringRoundTrip: strings are sequences of byte-valued characters shorter than 2^31. Longer strings overflow the `int` length prefix and are excluded.
- Items.IncreaseStock: `stock`, `soldCount` and ids are unbounded integers. The int32 overflow of `stock += amount` and `soldCount += amount` is not modelled; the codec requires in-range values.
- Clock.WithinDays: `days * 24` is computed without int overflow.
- Wall-clock reads: the C++ code reads `system_clock::now()` once per element and even inside sort comparators. A single `now` is used per query.
- Seqs.SortDesc: `std::sort` does not specify the order of equal keys. The model sorts stably, and no contract depends on the order of ties.
- Banks.GenerateReport: only the figures of the report are modelled: the counts, the weekly total and the busiest-five rows. The bank name line, the surrounding text and the `setprecision(2)` money formatting are not.
- Banks.CountTodayTransactions: the contract only bounds the count by the log size. The exact count is stated by `Banks.CountTodayAfterTransfer`.
- Stores.CountTodayTransactions: the contract only bounds the count by the log size. The exact count is stated by `Stores.CountTodayAfterSale`.
- Buyers.TotalSpending: the function carries no contract of its own, since amounts may be of either sign. Its meaning is stated by `Buyers.TotalSpendingAfterAdd`.
- Sellers.MonthlyItemSales: the contract only bounds the count. Its meaning is stated by `Sellers.MonthlyItemSalesAfterAdd` and `Sellers.MonthlyItemSalesOnlyCompleted`.
- `Buyer::getCashFlow(true)`, the monthly grouping, is not modelled. It depends on `localtime`/`mktime` and the host time zone.
- `Buyer::getInfo` is not modelled, because it prints the balance with `std::to_string(double)`.
- `Seller::CustomerStats::lastPurchase` is not modelled: it is written but never read.
- Store registration: the store has no operation that adds buyers or sellers. Its maps are modelled, and `MostActiveUsersToday` ranges over whatever they hold.
- Buyer pointer aliasing: the `BankCustomer*` a buyer holds is modelled as an account number in a bank, so a dangling pointer cannot be expressed.
- Buyers.Deposit: the buyer counts as linked only when its account number is present in the given bank. An absent number makes it report false. The C++ code dereferences any non-null pointer, including one to an account that belongs to no bank.
- Buyers.Withdraw: as for `Deposit`, an account number absent from the given bank makes it report false. The C++ code uses whatever account the pointer reaches.
- Buyers.GetBalance: an account number absent from the given bank gives 0. The C++ code reads the balance of whatever account the pointer reaches.
- Getters are the datatypes' fields and have no members of their own.
- The circular includes and the duplicated in-class and out-of-class definitions are build matters. Each operation is modelled once: the out-of-line copies in buyer.cpp and seller.cpp match the in-class definitions in buyer.h and seller.h, and a row may cite either.
