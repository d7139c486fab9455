# Banking backend and toast front end: a Dafny model

This project models the core of a small online-banking system. It covers:

- a Spring backend where users register, log in, open accounts, search, rename, re-balance and delete their own accounts, transfer money between two of their own accounts, and read the transaction history of one account;
- two pieces of the React front end: the Redux slice that queues error toasts, and the toast component's "how long ago" label.

Each backend service (`DBUserService`, `DBAccountService`, `DBTransactionService`) becomes a Dafny class. The class holds the repositories as one mutable object, `Repositories.Repositories`, with three tables:

- users, kept in insertion order;
- accounts, keyed by id;
- transactions, kept in insertion order.

Every service method is proved equal to a pure function over a snapshot of those tables (`Tables`): `Transfer`, `Create`, `Search`, `Update`, `Delete`, `Get`, `Register`, `Login` and `History`. The properties the system promises are lemmas about those functions:

- ownership checks;
- the error raised on every failure path;
- conservation of money across a transfer;
- exactly one transaction record per attempt;
- preservation of the database invariant;
- the meaning of the SQL `LIKE '%f%'` search.

The validation layer is modelled as the set of violations Bean Validation reports for a request. The constraints come from:

- `Password`;
- both `RegisterUserRequest` records;
- `UpdateAccountRequest`;
- `TransferMoneyRequest`.

`GlobalExceptionHandler` is a total function from exceptions to HTTP responses. `TransactionControllerImpl` is composed from the service and the handler.

Where the test suite and the code disagree, the model follows the code:

- `UserControllerImplTest.java:347-372` expects code `APP0001` for an already-registered user. The handler at `GlobalExceptionHandler.java:54-62` answers `APP0002`, and `Handle` does the same.
- The catch-all handler reports code `APP0002` (`USER_ALREADY_EXISTS`) with status 500 (`GlobalExceptionHandler.java:146`). `Handle` keeps that as well.

Things outside the process become parameters of the model:

- database-generated ids (`newId`, `txId`), which the state-changing methods require to be unused, as a generated primary key is;
- the clock (`now`, `nowMs`, and `txDate` for the service's own reading during a transfer);
- the message bundle (`messageSource`);
- the password encoder (`encode`, `matches`);
- the Keycloak token (`accessToken`);
- the `@Email` format check (`isEmail`).

## Model

| member | source | states |
|---|---|---|
| Exceptions.CodesDistinct | backend/src/main/java/com/brkygngr/banking/exception/ExceptionCode.java:10-14 | the five exception codes are distinct strings: two codes are equal exactly when they are the same constant |
| Dto.FromTransactionInjective | backend/src/main/java/com/brkygngr/banking/dto/transaction/TransactionHistoryResponse.java:17-24 | the history entry copies every field of a transaction: two entries are equal exactly when the transactions are |
| Repositories.FindByUsername | backend/src/main/java/com/brkygngr/banking/repository/UserRepository.java:14 | a found user is in the table and carries the requested username; nothing is found exactly when no stored user has that username |
| Repositories.FoundUserIsStored | backend/src/main/java/com/brkygngr/banking/repository/UserRepository.java:14 | the user found by username is a stored row, so its id belongs to a stored user |
| Repositories.PairLookup | backend/src/main/java/com/brkygngr/banking/repository/AccountRepository.java:15 | looking up the ids [from, to] among one owner's accounts returns two accounts exactly when from and to differ and both are that owner's accounts |
| Repositories.FindAllByFromOrTo | backend/src/main/java/com/brkygngr/banking/repository/TransactionRepository.java:11 | a transaction is returned exactly when it is stored and has the account as source or destination; never more rows than are stored |
| Repositories.FindAllByFromOrToAppend | backend/src/main/java/com/brkygngr/banking/repository/TransactionRepository.java:11 | saving one more transaction extends an account's query result by that transaction if it touches the account, and leaves it unchanged otherwise |
| Repositories.FindAllByUsernameOrEmail | backend/src/main/java/com/brkygngr/banking/repository/UserRepository.java:12 | a user is returned exactly when it is stored and its username or its email equals the identifier; never more rows than are stored |
| TransactionService.TransferUnknownUser | backend/src/main/java/com/brkygngr/banking/service/DBTransactionService.java:42 | an unknown username raises UserNotFound and leaves the database unchanged |
| TransactionService.TransferAccountNotFound | backend/src/main/java/com/brkygngr/banking/service/DBTransactionService.java:50-60 | when from and to are not two distinct accounts of the user, AccountNotFound is raised and nothing is saved |
| TransactionService.TransferInsufficientFunds | backend/src/main/java/com/brkygngr/banking/service/DBTransactionService.java:78-92 | a balance below the amount appends exactly one FAILED transaction with these accounts, amount and date, changes no balance, and answers FAILED with the reason |
| TransactionService.TransferSucceeds | backend/src/main/java/com/brkygngr/banking/service/DBTransactionService.java:94-106 | with enough funds the source loses the amount, the destination gains it, every other account is unchanged, exactly one SUCCESS transaction is appended, and the reason is empty |
| TransactionService.ExactBalanceSuffices | backend/src/main/java/com/brkygngr/banking/service/DBTransactionService.java:78 | the funds check is strict: transferring the whole balance succeeds and leaves zero |
| TransactionService.TransferFrame | backend/src/main/java/com/brkygngr/banking/service/DBTransactionService.java:41-107 | a transfer never touches users; a raised error leaves the whole database as it was; an answered attempt adds exactly one transaction |
| TransactionService.TotalRemove | backend/src/main/java/com/brkygngr/banking/service/DBTransactionService.java:122-127 | the sum of balances over all accounts is one account's balance plus the sum over the others |
| TransactionService.TotalUpdate | backend/src/main/java/com/brkygngr/banking/service/DBTransactionService.java:122-127 | replacing one account changes the sum of balances by exactly the change in that account's balance |
| TransactionService.TransferConservesTotal | backend/src/main/java/com/brkygngr/banking/service/DBTransactionService.java:122-127 | every transfer outcome keeps the total money across all accounts unchanged |
| TransactionService.TransferKeepsNonNegative | backend/src/main/java/com/brkygngr/banking/service/DBTransactionService.java:78-94 | if no balance is negative and the amount is not negative, no balance is negative afterwards |
| TransactionService.TransferKeepsValid | backend/src/main/java/com/brkygngr/banking/service/DBTransactionService.java:72-98 | when the new transaction row gets an unused id, the database invariant survives every transfer. The invariant: account keys are account ids; user ids and transaction ids are unique; every owner is a stored user; transactions reference stored accounts |
| TransactionService.HistoryOfExactly | backend/src/main/java/com/brkygngr/banking/service/DBTransactionService.java:116-119 | an entry is in an account's history exactly when it is the response of a stored transaction that has the account as source or destination |
| TransactionService.HistoryAfterTransfer | backend/src/main/java/com/brkygngr/banking/service/DBTransactionService.java:86-98 | an answered transfer adds its own record to the history of its two accounts and leaves every other account's history unchanged |
| TransactionService.HistoryCases | backend/src/main/java/com/brkygngr/banking/service/DBTransactionService.java:110-120 | account history raises UserNotFound for an unknown user and AccountNotFound for an account the user does not own; otherwise it lists exactly the transactions touching that account |
| TransactionService.DBTransactionService.constructor | backend/src/main/java/com/brkygngr/banking/service/DBTransactionService.java:27-37 | the service keeps the repositories and message source it is given |
| TransactionService.DBTransactionService.MoveFundsInPlace | backend/src/main/java/com/brkygngr/banking/service/DBTransactionService.java:122-127 | for two different stored accounts, both are updated in place (source minus amount, destination plus amount), and users and transactions are untouched |
| TransactionService.DBTransactionService.TransferMoney | backend/src/main/java/com/brkygngr/banking/service/DBTransactionService.java:41-107 | given a consistent database and an unused transaction id, the new state and the answer are those of `Transfer` on the old state, using the not-enough-money message, and the database invariant is kept |
| TransactionService.DBTransactionService.AccountHistory | backend/src/main/java/com/brkygngr/banking/service/DBTransactionService.java:110-120 | the answer is `History` of the current state, whose cases `HistoryCases` proves |
| AccountSpecification.LikePercent | backend/src/main/java/com/brkygngr/banking/repository/specification/AccountSpecification.java:19 | the pattern `%` matches every string |
| AccountSpecification.LikeLeadingPercent | backend/src/main/java/com/brkygngr/banking/repository/specification/AccountSpecification.java:19 | `%q` matches s exactly when q matches some suffix of s |
| AccountSpecification.LikeTrailingPercent | backend/src/main/java/com/brkygngr/banking/repository/specification/AccountSpecification.java:19 | for a wildcard-free f, `f%` matches s exactly when f is a prefix of s |
| AccountSpecification.LikeIsContains | backend/src/main/java/com/brkygngr/banking/repository/specification/AccountSpecification.java:19-20 | for a wildcard-free filter f, `LIKE '%f%'` holds exactly when f occurs in the column as a substring |
| AccountSpecification.EmptyFilterMatchesAll | backend/src/main/java/com/brkygngr/banking/repository/specification/AccountSpecification.java:19-20 | an empty filter gives `%%`, which matches every value |
| AccountSpecification.OnlyOwnerMatches | backend/src/main/java/com/brkygngr/banking/repository/specification/AccountSpecification.java:18-24 | the search predicate only ever accepts accounts of the searching user |
| AccountSpecification.MatchIsSubstring | backend/src/main/java/com/brkygngr/banking/repository/specification/AccountSpecification.java:18-24 | for wildcard-free filters, an account matches exactly when it is the user's and its number contains the number filter or its name contains the name filter |
| AccountSpecification.EitherEmptyFilterMatchesOwned | backend/src/main/java/com/brkygngr/banking/repository/specification/AccountSpecification.java:22 | because the two LIKEs are joined by OR, one empty filter makes every owned account match |
| AccountSpecification.UnderscoreIsWildcard | backend/src/main/java/com/brkygngr/banking/repository/specification/AccountSpecification.java:19 | user input is not escaped: the filter `a_c` matches "abc", which does not contain "a_c" |
| AccountService.UnknownUserChangesNothing | backend/src/main/java/com/brkygngr/banking/service/DBAccountService.java:42 | every account operation of an unknown username raises UserNotFound and leaves the database unchanged |
| AccountService.CreateAccountAddsOne | backend/src/main/java/com/brkygngr/banking/service/DBAccountService.java:52-62 | creating an account answers its new id, adds exactly that key, stores the account with the given name, the generated number, balance zero and the user as owner, and changes nothing else |
| AccountService.CreatedAccountIsVisible | backend/src/main/java/com/brkygngr/banking/service/DBAccountService.java:40-63 | right after creation, getting the new id as the same user answers its number, name and a zero balance |
| AccountService.SearchOnlyOwned | backend/src/main/java/com/brkygngr/banking/service/DBAccountService.java:66-90 | every search result is the response of one of the user's own accounts that satisfies the search predicate |
| AccountService.SearchWithAbsentFilterListsAll | backend/src/main/java/com/brkygngr/banking/service/DBAccountService.java:76-81 | when the number or the name filter is absent, the search lists every account of the user |
| AccountService.SearchBySubstring | backend/src/main/java/com/brkygngr/banking/service/DBAccountService.java:76-89 | for wildcard-free filters, the search returns exactly the user's accounts whose number contains the number filter or whose name contains the name filter |
| AccountService.UpdateNotOwned | backend/src/main/java/com/brkygngr/banking/service/DBAccountService.java:98-99 | updating an id that is not the user's account raises AccountNotFound and changes nothing |
| AccountService.UpdateSetsNameAndBalance | backend/src/main/java/com/brkygngr/banking/service/DBAccountService.java:98-104 | updating an owned account sets exactly its name and balance, keeps its id, number and owner, and leaves all other accounts, users and transactions unchanged |
| AccountService.DeleteNotOwned | backend/src/main/java/com/brkygngr/banking/service/DBAccountService.java:114-116 | deleting an id that is not the user's account raises AccountNotFound and changes nothing |
| AccountService.DeleteRemovesExactly | backend/src/main/java/com/brkygngr/banking/service/DBAccountService.java:114-120 | deleting an owned account that no transaction references removes exactly that key and keeps all other accounts, users and transactions |
| AccountService.DeleteReferencedFails | backend/src/main/java/com/brkygngr/banking/entity/Transaction.java:23-29 | deleting an account that some transaction references violates the foreign key: DataIntegrityViolation, and nothing changes |
| AccountService.GetAccountOwned | backend/src/main/java/com/brkygngr/banking/service/DBAccountService.java:126-139 | get succeeds exactly when the account is the user's and then answers that account's response (whose id is the requested one); otherwise it raises AccountNotFound |
| AccountService.CreateKeepsValid | backend/src/main/java/com/brkygngr/banking/entity/Account.java:21-45 | creating an account keeps the database invariant: the new account is stored under its id and owned by a stored user |
| AccountService.UpdateKeepsValid | backend/src/main/java/com/brkygngr/banking/service/DBAccountService.java:98-104 | updating an account's name and balance keeps the database invariant |
| AccountService.DeleteKeepsValid | backend/src/main/java/com/brkygngr/banking/entity/Transaction.java:23-29 | a delete that succeeds removes only an account no transaction references, so the database invariant is kept |
| AccountService.GenerateAccountNumber | backend/src/main/java/com/brkygngr/banking/service/DBAccountService.java:46-50 | the generated number has exactly 16 characters, each a decimal digit |
| AccountService.DBAccountService.constructor | backend/src/main/java/com/brkygngr/banking/service/DBAccountService.java:27-37 | the service keeps the repositories it is given |
| AccountService.DBAccountService.CreateAccount | backend/src/main/java/com/brkygngr/banking/service/DBAccountService.java:40-63 | given a consistent database and an unused account id, the new state is `Create` of the old one with the number this call generated, that number is 16 digits, and the invariant is kept |
| AccountService.DBAccountService.SearchAccounts | backend/src/main/java/com/brkygngr/banking/service/DBAccountService.java:66-90 | the answer is `Search` of the current state, characterised by the search lemmas |
| AccountService.DBAccountService.UpdateAccount | backend/src/main/java/com/brkygngr/banking/service/DBAccountService.java:93-107 | the new state and the answer are `Update` of the old state, and the invariant is kept |
| AccountService.DBAccountService.DeleteAccount | backend/src/main/java/com/brkygngr/banking/service/DBAccountService.java:109-123 | the new state and the answer are `Delete` of the old state, and the invariant is kept |
| AccountService.DBAccountService.GetAccount | backend/src/main/java/com/brkygngr/banking/service/DBAccountService.java:126-139 | the answer is `Get` of the current state, characterised by `GetAccountOwned` |
| UserService.RegisterRejectsTaken | backend/src/main/java/com/brkygngr/banking/service/DBUserService.java:30-34 | registering a username or email that a stored user already has raises UserAlreadyExists and saves nothing |
| UserService.RegisterAddsOne | backend/src/main/java/com/brkygngr/banking/service/DBUserService.java:36-45 | a free username and email append exactly one user with the new id, the username, the email and the encoded password; the answer is the new id, and the user is then found by username |
| UserService.FindByUsernameAppend | backend/src/main/java/com/brkygngr/banking/repository/UserRepository.java:14 | a user appended with a username no stored user has is the one found by that username |
| UserService.RegisterKeepsUniqueColumns | backend/src/main/java/com/brkygngr/banking/entity/User.java:28-35 | registration keeps usernames unique and emails unique across the table |
| UserService.RegisterKeepsValid | backend/src/main/java/com/brkygngr/banking/service/DBUserService.java:36-45 | registering under an unused id keeps user ids unique and every account's owner a stored user, so the database invariant is kept |
| UserService.LoginUnknown | backend/src/main/java/com/brkygngr/banking/service/DBUserService.java:50-51 | an identifier that is no user's username or email raises UserNotFound |
| UserService.LoginOneMatch | backend/src/main/java/com/brkygngr/banking/service/DBUserService.java:50-59 | with exactly one matching user, login answers that user's token exactly when the password matches, and raises UserOrPasswordInvalid exactly when it does not |
| UserService.LoginSuccessIsAuthentic | backend/src/main/java/com/brkygngr/banking/service/DBUserService.java:49-60 | a successful login answers the token of a stored user whose username or email is the identifier and whose password matches |
| UserService.NoMatchFindsNothing | backend/src/main/java/com/brkygngr/banking/repository/UserRepository.java:12 | with no user having the identifier as username or email, the lookup returns no rows |
| UserService.AtMostOneMatch | backend/src/main/java/com/brkygngr/banking/repository/UserRepository.java:12 | if no identifier is shared by two users, the username-or-email lookup returns at most one row |
| UserService.AmbiguousLoginAfterRegister | backend/src/main/java/com/brkygngr/banking/service/DBUserService.java:30-34 | the two registrations (bob, bob@example.com) and (bob@example.com, alice@example.com), both with a valid password, pass request validation and the existence check, and keep the columns unique. Yet logging in as "bob@example.com" fails with an incorrect-result-size error |
| UserService.RegisterCheckedKeepsUnambiguous | backend/src/main/java/com/brkygngr/banking/service/DBUserService.java:30-34 | the corrected check, which also compares each new identifier against the other column, keeps every identifier naming at most one user, and rejects everything the original check rejects |
| UserService.LoginAfterRegisterChecked | backend/src/main/java/com/brkygngr/banking/service/DBUserService.java:49-60 | after a corrected registration, logging in with the new username or email and the right password answers the new user's token |
| UserService.DBUserService.constructor | backend/src/main/java/com/brkygngr/banking/service/DBUserService.java:18-26 | the service keeps the repositories, encoder, matcher and token source it is given |
| UserService.DBUserService.RegisterUser | backend/src/main/java/com/brkygngr/banking/service/DBUserService.java:29-46 | given a consistent database and an unused user id, the new user table and the answer are `Register` of the old table, accounts and transactions are untouched, and the database invariant is kept |
| UserService.DBUserService.LoginUser | backend/src/main/java/com/brkygngr/banking/service/DBUserService.java:49-60 | the answer is `Login` on the current user table |
| Validation.PasswordAccepted | backend/src/main/java/com/brkygngr/banking/validation/Password.java:24-29 | a present password is accepted exactly when it is not blank, has 8 to 255 characters, has no line terminator, and contains a digit, a lower-case letter, an upper-case letter and one of `@#$%^&+=,.` |
| Validation.PasswordAbsent | backend/src/main/java/com/brkygngr/banking/validation/Password.java:24-29 | a missing password violates only the required constraint (size and pattern accept null) |
| Validation.BlankPasswordFailsPattern | backend/src/main/java/com/brkygngr/banking/validation/Password.java:26-29 | a blank password also fails the pattern |
| Validation.EmptyPasswordViolatesAll | backend/src/test/java/com/brkygngr/banking/controller/UserControllerImplTest.java:88-117 | the empty password is reported as required, wrong size and wrong pattern |
| Validation.ShortPasswordViolatesSizeOnly | backend/src/test/java/com/brkygngr/banking/controller/UserControllerImplTest.java:120-143 | "aA1." violates only the size constraint |
| Validation.NoDigitViolatesPatternOnly | backend/src/test/java/com/brkygngr/banking/controller/UserControllerImplTest.java:175-201 | a password without a digit violates only the pattern |
| Validation.NoLowerViolatesPatternOnly | backend/src/test/java/com/brkygngr/banking/controller/UserControllerImplTest.java:204-230 | a password without a lower-case letter violates only the pattern |
| Validation.NoUpperViolatesPatternOnly | backend/src/test/java/com/brkygngr/banking/controller/UserControllerImplTest.java:233-259 | a password without an upper-case letter violates only the pattern |
| Validation.NoSpecialViolatesPatternOnly | backend/src/test/java/com/brkygngr/banking/controller/UserControllerImplTest.java:262-288 | a password without a special character violates only the pattern |
| Validation.GoodPasswordAccepted | backend/src/test/java/com/brkygngr/banking/controller/UserControllerImplTest.java:374-391 | "aA12345678." is accepted |
| Validation.RegisterUsernameRules | backend/src/main/java/com/brkygngr/banking/dto/user/RegisterUserRequest.java:9-11 | in both request copies, the username is reported required exactly when it is missing or blank, and too long exactly when it has more than 255 characters |
| Validation.RegisterPasswordRules | backend/src/main/java/com/brkygngr/banking/dto/user/RegisterUserRequest.java:12-13 | the password violations of a registration are exactly those of `@Password` |
| Validation.RegisterEmailFormatRule | backend/src/main/java/com/brkygngr/banking/dto/user/RegisterUserRequest.java:15 | the email is reported malformed exactly when it is present, not empty, and fails the format check |
| Validation.BlankEmailRejected | backend/src/main/java/com/brkygngr/banking/dto/user/RegisterUserRequest.java:14 | in the user-package request, a missing or blank email is reported as required |
| Validation.WellFormedRegistrationAccepted | backend/src/test/java/com/brkygngr/banking/controller/UserControllerImplTest.java:374-391 | the registration (username, aA12345678., test@email.com) has no violations in either copy |
| Validation.ValidRegistrationAccepted | backend/src/main/java/com/brkygngr/banking/dto/RegisterUserRequest.java:8-16 | either request copy accepts a non-blank username of at most 255 characters, the password aA12345678. and a non-blank email the format check accepts |
| Validation.EmptyEmailAcceptedByBoundCopy | backend/src/main/java/com/brkygngr/banking/dto/RegisterUserRequest.java:14-15 | the request record the controller binds accepts an empty email with no violation at all |
| Validation.UpdateAccountAccepted | backend/src/main/java/com/brkygngr/banking/dto/account/UpdateAccountRequest.java:8-12 | an update request is accepted exactly when the name is present and not blank and the balance is present and positive |
| Validation.MissingFromCrashesValidator | backend/src/main/java/com/brkygngr/banking/dto/transaction/TransferMoneyRequest.java:14-17 | as written, a transfer request without `from` makes the cross-field check throw, so validation ends in an internal error instead of violations |
| Validation.TransferValidatorsAgree | backend/src/main/java/com/brkygngr/banking/dto/transaction/TransferMoneyRequest.java:9-17 | whenever `from` is present, the validator as written and the null-safe one report the same violations |
| Validation.TransferRules | backend/src/main/java/com/brkygngr/banking/dto/transaction/TransferMoneyRequest.java:9-17 | each transfer violation is reported exactly when it applies: from, to or amount missing; amount not positive; from equal to to |
| Validation.TransferAccepted | backend/src/main/java/com/brkygngr/banking/dto/transaction/TransferMoneyRequest.java:9-17 | a transfer request is accepted exactly when from, to and amount are present, the amount is positive, and from differs from to |
| GlobalExceptionHandler.FieldMessages | backend/src/main/java/com/brkygngr/banking/exception/GlobalExceptionHandler.java:37-41 | one message per field error, in the same order, each the error's default message |
| GlobalExceptionHandler.HandleStatus | backend/src/main/java/com/brkygngr/banking/exception/GlobalExceptionHandler.java:35-148 | every exception gets a body stamped with the current time. The status is 404 exactly for the two not-found exceptions, 500 exactly for unknown exceptions, and 400 exactly for validation failures, existing users, bad credentials and integrity violations |
| GlobalExceptionHandler.ValidationFailureResponse | backend/src/main/java/com/brkygngr/banking/exception/GlobalExceptionHandler.java:35-45 | a validation failure answers 400 with code APP0001 and exactly the field errors' default messages, in order |
| GlobalExceptionHandler.SingleMessageResponses | backend/src/main/java/com/brkygngr/banking/exception/GlobalExceptionHandler.java:54-148 | every other exception answers exactly one message, looked up from its own key (fixed keys for integrity violations and unknown errors) |
| GlobalExceptionHandler.HandleCodes | backend/src/main/java/com/brkygngr/banking/exception/GlobalExceptionHandler.java:54-148 | the code each handler puts in the body, including APP0003 for a missing account and APP0002 for an unknown error |
| GlobalExceptionHandler.NotFoundKindsShareStatusAndCode | backend/src/main/java/com/brkygngr/banking/exception/GlobalExceptionHandler.java:88-112 | a missing user and a missing account cannot be told apart by status or code |
| TransactionController.TransferResponseMapping | backend/src/main/java/com/brkygngr/banking/controller/TransactionControllerImpl.java:42-50 | a SUCCESS answer becomes 204 with no body; a FAILED answer becomes 422 with code APP0005 and the reason as the only message |
| TransactionController.TransferUsesClaim | backend/src/main/java/com/brkygngr/banking/controller/TransactionControllerImpl.java:36-40 | the endpoint transfers as the token's `preferred_username`, with the same database effect and the same errors as the service |
| TransactionController.MissingClaimIsUserNotFound | backend/src/main/java/com/brkygngr/banking/controller/TransactionControllerImpl.java:38 | a token without `preferred_username` makes both endpoints raise UserNotFound and changes nothing |
| TransactionController.HistoryPassThrough | backend/src/main/java/com/brkygngr/banking/controller/TransactionControllerImpl.java:57-61 | a successful history answers 200 with the service's list as body |
| TransactionController.EndpointSuccess | backend/src/main/java/com/brkygngr/banking/controller/TransactionControllerImpl.java:32-51 | a covered transfer between two own accounts answers 204, moves the amount and records one SUCCESS transaction |
| TransactionController.EndpointInsufficientFunds | backend/src/main/java/com/brkygngr/banking/controller/TransactionControllerImpl.java:32-51 | an uncovered transfer answers 422 APP0005 with the not-enough-money message, changes no balance and records one FAILED transaction |
| TransactionController.EndpointAccountNotFound | backend/src/main/java/com/brkygngr/banking/controller/TransactionControllerImpl.java:32-51 | a transfer involving an account the user does not own answers 404 APP0003 with the account-not-found message and changes nothing |
| AppToast.IconMapInjective | frontend/src/components/toast/AppToast.tsx:8-12 | the three toast types get three different icons |
| AppToast.ElapsedSeconds | frontend/src/components/toast/AppToast.tsx:36 | the elapsed seconds are the floor of the elapsed milliseconds divided by 1000, negative for a future timestamp |
| AppToast.PastTimeType | frontend/src/components/toast/AppToast.tsx:35-47 | scanning the breakpoints in ascending key order returns the label of the first breakpoint above the elapsed seconds, or days |
| AppToast.BucketRanges | frontend/src/components/toast/AppToast.tsx:14-18 | seconds below 60, minutes from 60 to below 3600, hours from 3600 to below 86400, days from 86400 on |
| AppToast.FutureTimestampIsSeconds | frontend/src/components/toast/AppToast.tsx:35-47 | a timestamp in the future gives a negative elapsed time and the label seconds |
| AppToast.UnitMonotone | frontend/src/components/toast/AppToast.tsx:35-47 | as the clock advances, the label never moves to a smaller unit |
| ErrorSlice.IndexOf | frontend/src/services/error/errorSlice.ts:31 | `findIndex`: -1 or a valid index; a returned index holds the timestamp, and no earlier message (none at all for -1) does |
| ErrorSlice.FindIndex | frontend/src/services/error/errorSlice.ts:31 | the loop returns the index of the first message with the timestamp, or -1 |
| ErrorSlice.DeleteRemovesFirstMatch | frontend/src/services/error/errorSlice.ts:30-34 | deleting removes exactly the first message with the given timestamp and keeps the others in order |
| ErrorSlice.DeleteWithoutMatchDropsLast | frontend/src/services/error/errorSlice.ts:31-33 | with no matching message, `splice(-1, 1)` removes the last message instead |
| ErrorSlice.DeleteFromEmpty | frontend/src/services/error/errorSlice.ts:30-34 | deleting from the empty queue leaves it empty |
| ErrorSlice.DeleteShrinksByOne | frontend/src/services/error/errorSlice.ts:30-34 | deleting from a non-empty queue always removes exactly one message |
| ErrorSlice.ShowThenDeleteRestores | frontend/src/services/error/errorSlice.ts:24-34 | showing a toast with a fresh timestamp and then deleting it restores the queue |
| ErrorSlice.ErrorSlice.constructor | frontend/src/services/error/errorSlice.ts:16-18 | the queue starts empty |
| ErrorSlice.ErrorSlice.ShowToast | frontend/src/services/error/errorSlice.ts:24-29 | the queue gains exactly one message at its end, stamped with the current time |
| ErrorSlice.ErrorSlice.DeleteMessage | frontend/src/services/error/errorSlice.ts:30-34 | the new queue is `Deleted` of the old one, whose effect the delete lemmas state |

## Left out

- Concurrency: `@Transactional` and `synchronized` are not modelled. Each service call is one atomic step on the tables.
- Amounts and balances are unbounded integers in the smallest currency unit. `BigDecimal` scale and rounding (`Account.java:33`) are not modelled.
- AccountService.GenerateAccountNumber: promises 16 decimal digits only. The `SecureRandom` digits are a nondeterministic choice, and uniqueness of the number is not claimed, because the source does not ensure it.
- The database unique constraints on account number and name and on username and email are not modelled as save errors. The foreign key from transactions to accounts is modelled, as the DataIntegrityViolation of delete.
- The search answers a set. Pagination and sort order (`Pageable`) are not modelled.
- TransactionService.HistoryOfExactly: states membership only. The source's list order comes from the database and is unspecified; the model uses storage order.
- `TransactionHistoryResponse` carries the two `Account` entities; the model carries their ids.
- The Keycloak calls are not modelled beyond the token: registration at `DBUserService.java:41` is left out, including a failure there that would abort before the save. The login token is the parameter `accessToken`.
- The password encoder, the message bundle, the `@Email` regular expression, the clocks and the database-generated UUIDs are parameters of the model.
- String lengths count characters, not UTF-16 code units.
- The LIKE model has no escape character and compares case-sensitively. The database dialect decides both, and it is not part of this model. The substring lemmas (`AccountSpecification.LikeIsContains`, `AccountService.SearchBySubstring`) are stated only for filters without `%`, `_` or backslash, where neither choice matters.
- A database-generated id that collides with an existing row is not modelled: such a save would fail and never overwrite. The state-changing methods require their `newId` or `txId` to be unused instead.
- A null username reaching a service is treated as an unknown user.
- Request binding is not modelled: JSON parsing, `@Valid` and the order of field errors. The validators answer sets, and the handler takes field errors in the order given.
- `CreateAccountRequest`, `LoginUserRequest` and `SearchAccountsQuery` are not modelled separately: their fields are plain parameters.
- Web plumbing is not modelled: security configuration, OpenAPI annotations, the other controllers and logging.
- Of the front end, only the error slice and the toast's time label are modelled. Rendering, auto-hide timing and the rest of the UI are not.

## Findings

| source | as written | input that shows it | evidently intended | confidence | as-written member | corrected member |
|---|---|---|---|---|---|---|
| backend/src/main/java/com/brkygngr/banking/dto/transaction/TransferMoneyRequest.java:14-17 | the cross-field check calls `from.equals(to)` without a null check | a transfer request without `from` | 400 with the from-required violation | medium, not executed | Validation.MissingFromCrashesValidator | Validation.TransferAccepted |
| backend/src/main/java/com/brkygngr/banking/service/DBUserService.java:30-34 | the existence check compares the new username only with usernames and the new email only with emails | register (bob, bob@example.com), then register (bob@example.com, alice@example.com), both valid requests, then log in with identifier bob@example.com | each identifier names at most one user, so that login succeeds | medium, not executed | UserService.AmbiguousLoginAfterRegister | UserService.LoginAfterRegisterChecked |
| backend/src/main/java/com/brkygngr/banking/dto/RegisterUserRequest.java:14-15 | the email of the record the controller binds has `@Email` but no `@NotBlank` | a registration with email "" (UserControllerImplTest.java:291-316 expects "Email is required!") | the empty email is rejected as required, as the `dto/user` copy does | high, not executed | Validation.EmptyEmailAcceptedByBoundCopy | Validation.BlankEmailRejected |

More on each finding:

- **Missing `from`.** The exception escapes validation and is answered by the catch-all handler with 500. `Validation.TransferViolationsAsWritten` models the code as written. `Validation.TransferViolations` is the null-safe check, characterised by `Validation.TransferRules` and `Validation.TransferAccepted`.
- **Ambiguous login.** `UserService.Register` and `DBUserService.RegisterUser` keep the code as written. `UserService.RegisterChecked` is the corrected check, and `UserService.RegisterCheckedKeepsUnambiguous` proves it keeps every identifier unique. Keycloak's own duplicate checks on the call at `DBUserService.java:41` are not part of this model; they might refuse the second registration before the save.
- **Empty email.** `RegisterUserViolations(InDtoPackage, …)` is the copy as written, and `InUserPackage` is the corrected one.
