# POS_MAUI cashier core, modelled in Dafny

POS_MAUI is a butcher's cashier app. This project models the logic it keeps
inside its pages and services:

- **Order summary** (`ProductSummaryPage`). Each quantity cell of the order sheet is split into its leading digits and an annotation written in superscript letters. The annotation is decoded through a 36-entry table. The quantities are then summed per `product^annotation` key.
- **Order list** (`OrdersPage.LoadOrdersFromExcel`). This turns sheet rows into order cards. It keeps a row only when the row has a valid id, a customer name and a positive quantity. Each quantity cell is parsed whole, so it reads the same cell differently from the summary.
- **Local sign-in** (`LocalAuthService`). This covers registration, the `users.txt` line format and its parser, login, logout and the current user.
- **Receipt saving** (`ExcelHelper`, `ExcelFileListPage`). This covers the layout of a new receipt workbook, appending a receipt to the checked file, and the single-selection file list.
- **Receipt printing** (`ReceiptPrinterService`). Polish letters are normalised and the ESC/POS code-page command is put in front.
- **Products**. The product administration pages add, delete and edit products. The till adds up fixed prices.
- **Notifying setters**. These are the setters of `ReceiptItem` and `ExcelFile`.

A spreadsheet is a map from (row, column) to cell text (`Sheet.Grid`) on the
read side. On the write side it is a map to tagged values (`Sheet.Worksheet`).
In both cases the used range is optional. C# `decimal` is modelled as `real`,
and `null` as `Option.None`. Exceptions and rejected input are modelled as
`Result.Failure`.

Rows without a parsable id are skipped. The product for column `c` is
catalog entry `c - 3`. No code here assigns order ids.

## Model

| member | source | states |
|---|---|---|
| ProductSummary.ConvertFromSuperscript | Pages/ProductSummaryPage.xaml.cs:171-187 | decoding keeps the length of the annotation, one character for one; what each character becomes is stated by ConvertFromSuperscriptOfKey and AsciiIsNotSuperscript |
| ProductSummary.SuperscriptImagesInOrder | Pages/ProductSummaryPage.xaml.cs:173-184 | the 36 images are the digits, the letters a to z without q, and the point, in table order |
| ProductSummary.SuperscriptImagesShape | Pages/ProductSummaryPage.xaml.cs:175-183 | every image is ASCII and no entry produces 'q' |
| ProductSummary.SuperscriptKeysAreNotAscii | Pages/ProductSummaryPage.xaml.cs:175-183 | every superscript key lies outside ASCII |
| ProductSummary.SuperscriptImagesAreNotKeys | Pages/ProductSummaryPage.xaml.cs:173-184 | no decoded character is itself a superscript key |
| ProductSummary.AsciiIsNotSuperscript | Pages/ProductSummaryPage.xaml.cs:186 | an ASCII character has no entry and passes through unchanged |
| ProductSummary.ConvertFromSuperscriptIdempotent | Pages/ProductSummaryPage.xaml.cs:186 | decoding a decoded annotation changes nothing |
| ProductSummary.ConvertFromSuperscriptKeepsPlain | Pages/ProductSummaryPage.xaml.cs:186 | text without superscript keys is returned unchanged |
| ProductSummary.ConvertFromSuperscriptKeepsAscii | Pages/ProductSummaryPage.xaml.cs:186 | ASCII text is returned unchanged |
| ProductSummary.ConvertFromSuperscriptImage | Pages/ProductSummaryPage.xaml.cs:186 | a superscript key decodes to one of the table's images, never to 'q' |
| ProductSummary.ConvertFromSuperscriptA | Pages/ProductSummaryPage.xaml.cs:177 | the modifier letter small a decodes to "a" |
| ProductSummary.SuperscriptKeysDistinct | Pages/ProductSummaryPage.xaml.cs:173-184 | no superscript character is listed twice, so building the dictionary does not throw |
| ProductSummary.ConvertFromSuperscriptOfKey | Pages/ProductSummaryPage.xaml.cs:186 | each of the 36 superscript characters decodes to its own plain character from the table |
| ProductSummary.DecodeCellOfParts | Pages/ProductSummaryPage.xaml.cs:59-76 | decoding inverts writing a digit run and then an annotation that does not start with a digit: the quantity is the run's value, the annotation its decoding, none when empty |
| ProductSummary.DecodeCellOfDecimalText | Pages/ProductSummaryPage.xaml.cs:64-70 | "3.5" counts 3 under the annotation ".5": a fraction is not read as part of the quantity |
| ProductSummary.PointFractionIsPlain | Pages/ProductSummaryPage.xaml.cs:186 | a point followed by digits decodes to itself |
| ProductSummary.DecodeCellOfAnnotated | Pages/ProductSummaryPage.xaml.cs:64-75 | digits followed by the superscript a count their value under annotation "a" |
| ProductSummary.DecodeCellQuantityOfParts | Pages/ProductSummaryPage.xaml.cs:64-70 | the quantity of a digit run followed by an annotation that does not start with a digit is the run's value |
| ProductSummary.DecodeCell | Pages/ProductSummaryPage.xaml.cs:59-76 | the reading of one cell: its digits and decoded annotation as DecodeCellOfParts states, never a negative quantity as DecodeCellNonNegative states |
| ProductSummary.DecodeCellNonNegative | Pages/ProductSummaryPage.xaml.cs:59-70 | no cell counts a negative quantity: an empty cell or one without leading digits counts 0 |
| ProductSummary.KeyDistinguishes | Pages/ProductSummaryPage.xaml.cs:80 | for one product two annotations share a key exactly when they are equal, with "No Superscript" standing for none |
| ProductSummary.Key | Pages/ProductSummaryPage.xaml.cs:80 | the dictionary key of a product and annotation; KeyDistinguishes states when two keys coincide |
| ProductSummary.NoSuperscriptIsPlain | Pages/ProductSummaryPage.xaml.cs:80 | the "No Superscript" text decodes to itself |
| ProductSummary.NoSuperscriptCollides | Pages/ProductSummaryPage.xaml.cs:80 | a cell annotated with the text "No Superscript" lands in the bucket of plain quantities |
| ProductSummary.AccumulateTotals | Pages/ProductSummaryPage.xaml.cs:81-88 | a key is in the summary exactly when some counted cell has it, and its total is the sum of those cells' quantities |
| ProductSummary.AccumulateConsistent | Pages/ProductSummaryPage.xaml.cs:81-88 | the listed keys are distinct and are exactly the keys that have a total |
| ProductSummary.SumForAppend | Pages/ProductSummaryPage.xaml.cs:83 | per-key sums add over consecutive stretches of cells |
| ProductSummary.AccumulateAdditive | Pages/ProductSummaryPage.xaml.cs:81-88 | the summary of two stretches of cells is the per-key sum of their summaries |
| ProductSummary.AccumulateSnoc | Pages/ProductSummaryPage.xaml.cs:81-88 | counting one more cell is one dictionary update |
| ProductSummary.Add | Pages/ProductSummaryPage.xaml.cs:81-88 | one dictionary update: a known key gains the quantity, a new key is listed last; AccumulateTotals states its cumulative effect |
| ProductSummary.Accumulate | Pages/ProductSummaryPage.xaml.cs:52-88 | the dictionary after counting cells in loop order; AccumulateTotals relates it to the per-key reference sum |
| ProductSummary.AccumulateNonNegative | Pages/ProductSummaryPage.xaml.cs:81-88 | when no counted cell is negative, no total is negative |
| ProductSummary.EntriesNonNegative | Pages/ProductSummaryPage.xaml.cs:52-76 | every cell counted over rows 2.. and columns 3.. has a quantity of at least 0 |
| ProductSummary.RowEntriesNonNegative | Pages/ProductSummaryPage.xaml.cs:54-76 | every cell counted in one row has a quantity of at least 0 |
| ProductSummary.SummaryNonNegative | Pages/ProductSummaryPage.xaml.cs:43-88 | every total of the page's summary is at least 0 |
| ProductSummary.LoadProductSummary | Pages/ProductSummaryPage.xaml.cs:43-90 | no summary for a sheet without a used range; otherwise the summary of every cell of rows 2.. and columns 3.., in loop order |
| ProductSummary.CountRow | Pages/ProductSummaryPage.xaml.cs:54-88 | the column loop of one row adds exactly that row's cells, columns 3.., to the summary of the cells before them |
| Orders.RowQuantities | Pages/OrdersPage.xaml.cs:75-84 | one quantity per product column, as many as there are both columns and products |
| Orders.CellQuantity | Pages/OrdersPage.xaml.cs:78 | a whole cell parsed as a decimal, 0 when it does not parse; AnnotatedCellReadsDifferently and DecimalCellReadsDifferently contrast it with the summary's reading |
| Orders.HasPositiveSnoc | Pages/OrdersPage.xaml.cs:85-88 | the "non-zero" flag after one more column is the old flag or the new quantity being positive |
| Orders.ReadQuantities | Pages/OrdersPage.xaml.cs:71-90 | the column loop yields the row's quantities, and its flag is set exactly when one of them is positive |
| Orders.ReadRow | Pages/OrdersPage.xaml.cs:58-101 | the body of the row loop produces exactly the row's order, or none |
| Orders.RowOrder | Pages/OrdersPage.xaml.cs:58-101 | the order of one row or none; RowOrderKept states exactly when a row is kept |
| Orders.KeptOrders | Pages/OrdersPage.xaml.cs:55-101 | the orders of rows 2.. in row order; KeptOrdersAreValid states what every one of them satisfies |
| Orders.AddRowOrder | Pages/OrdersPage.xaml.cs:93-101 | a kept row's order is appended after the orders of the rows above it |
| Orders.LoadOrdersFromExcel | Pages/OrdersPage.xaml.cs:47-102 | nothing for a sheet without a used range; otherwise the existing orders followed by the kept rows' orders, in row order |
| Orders.KeptOrdersAreValid | Pages/OrdersPage.xaml.cs:55-101 | every emitted order has a 32-bit id, a non-blank name and a positive quantity, and lists the products in catalog order |
| Orders.RowOrderKept | Pages/OrdersPage.xaml.cs:58-93 | a row is kept exactly when its id parses, its name is not blank and some product column is positive; its order then carries the signed value of the id text, the name as written and the row's quantities |
| Orders.ParsedIdIsNotBlank | Pages/OrdersPage.xaml.cs:59 | an id text that parses is never blank, so the blank test adds nothing |
| Orders.RowHasPositive | Pages/OrdersPage.xaml.cs:85-88 | the row's flag is set exactly when one of its product columns is positive |
| Orders.AnnotatedCellReadsDifferently | Pages/OrdersPage.xaml.cs:78 | a quantity with a superscript annotation counts 0 here but its digits in the summary |
| Orders.CellQuantityOfNonDecimal | Pages/OrdersPage.xaml.cs:78 | a cell holding a character no decimal can hold counts 0 |
| Orders.DecimalCellReadsDifferently | Pages/OrdersPage.xaml.cs:78 | a decimal quantity counts in full here but only its whole part in the summary |
| Numbers.ParseInt32 | Pages/OrdersPage.xaml.cs:59 | a parsed id comes from digits after an optional sign and is their value, negated after `-`; such text parses exactly when that value lies in the 32-bit range |
| Numbers.ParseInt32OfNat | Pages/OrdersPage.xaml.cs:59 | the decimal text of an id reads back as that id |
| Numbers.ParseInt32OfNegative | Pages/OrdersPage.xaml.cs:59 | `-` followed by the decimal text of n reads back as -n, down to -2147483648 |
| Numbers.ParseInt32OfPaddedNat | Pages/OrdersPage.xaml.cs:59 | leading zeros are ignored: "007" reads as 7 |
| Numbers.DigitsValueOfLeadingZero | Pages/OrdersPage.xaml.cs:59 | a leading zero does not change the value of a digit run |
| Numbers.PaddedValue | Pages/OrdersPage.xaml.cs:59 | any number of leading zeros leave the value of a digit run unchanged |
| Numbers.NatToString | Helpers/ExcelHelper.cs:71 | the decimal text of a number is digits only, without a leading zero, and has that value |
| Numbers.LeadingDigits | Pages/ProductSummaryPage.xaml.cs:64 | the leading run is a prefix made of digits, followed by a non-digit or by nothing |
| Numbers.LeadingDigitsOfDigitsThen | Pages/ProductSummaryPage.xaml.cs:64-65 | the leading run of digits followed by a non-digit is exactly those digits |
| Numbers.ParseDecimalShape | Pages/OrdersPage.xaml.cs:78 | only text made of digits, a point and a sign, with a digit, parses as a decimal |
| Numbers.ParseDecimalRejects | Pages/OrdersPage.xaml.cs:78 | text holding any other character fails to parse, so the cell counts 0 |
| Numbers.ParseDecimalOfDigits | Pages/ProductSummaryPage.xaml.cs:67-70 | a digit run parses to its value |
| Numbers.ParseDecimalOfFraction | Pages/OrdersPage.xaml.cs:78 | digits, a point and digits parse to the fraction they spell |
| Numbers.ParseDecimal | Pages/OrdersPage.xaml.cs:78 | `decimal.TryParse` in the forms modelled; ParseDecimalShape, ParseDecimalRejects, ParseDecimalOfDigits and ParseDecimalOfFraction state what parses and to what |
| LocalAuth.NewService | Auth/LocalAuthService.cs:16-22 | a new service has nobody logged in, and no users when there is no file |
| LocalAuth.Register | Auth/LocalAuthService.cs:30-40 | fails with "User already exists." exactly when the name is taken, ignoring case; otherwise appends one user with the password's hash and keeps everything else |
| LocalAuth.RemoveEmpty | Auth/LocalAuthService.cs:76 | no empty line survives, every non-empty line does, and a list without empty lines is kept as it is |
| LocalAuth.SetCurrentUser | Auth/LocalAuthService.cs:87-90 | records the name and keeps the users |
| LocalAuth.Logout | Auth/LocalAuthService.cs:111-114 | clears the current user and keeps the users |
| LocalAuth.GetCurrentUsername | Auth/LocalAuthService.cs:116-119 | the logged-in name; CurrentUsernameThroughSession states its value through a session |
| LocalAuth.CurrentUsernameThroughSession | Auth/LocalAuthService.cs:87-119 | nobody after a start or a logout, the name as typed after a successful login, unchanged after a failed one |
| LocalAuth.Login | Auth/LocalAuthService.cs:91-109 | succeeds exactly when some user has the name, ignoring case, and the password's hash; then records the name as typed, else changes nothing |
| LocalAuth.RegisterThenLogin | Auth/LocalAuthService.cs:30-40 | right after registering, the new user logs in with the same password |
| LocalAuth.LoginNeedsRegisteredName | Auth/LocalAuthService.cs:98-108 | nobody logs in under a name no user has |
| LocalAuth.RegisterKeepsNamesUnique | Auth/LocalAuthService.cs:32-38 | registration keeps user names distinct, ignoring case |
| LocalAuth.LineOfStorable | Auth/LocalAuthService.cs:68 | a user line splits back at the comma into name and hash |
| LocalAuth.DeserializeSerialize | Auth/LocalAuthService.cs:63-86 | reading the written file gives back the users, when no field holds a comma or a line break |
| LocalAuth.Serialize | Auth/LocalAuthService.cs:63-71 | one `name,hash` line per user, each ended by the line separator; DeserializeSerialize reads it back as the same users |
| LocalAuth.Deserialize | Auth/LocalAuthService.cs:73-86 | the users of the non-empty lines that split into two parts at the comma; DeserializeSerialize and ParsedUsersHaveNoComma state its results |
| LocalAuth.ParseLines | Auth/LocalAuthService.cs:77-84 | lines that do not split into exactly two parts are skipped; ParsedUsersHaveNoComma states what the users read satisfy |
| LocalAuth.LoadUsers | Auth/LocalAuthService.cs:42-51 | no users without a file, else the file's users; RegisterPersists states that it reads back what registration wrote |
| LocalAuth.UsersFile | Auth/LocalAuthService.cs:39 | the text registration writes; RegisterPersists states that a restart reads exactly the registered users from it |
| LocalAuth.RegisterPersists | Auth/LocalAuthService.cs:37-39 | a restarted service reads exactly the users registration wrote |
| LocalAuth.ParsedUsersHaveNoComma | Auth/LocalAuthService.cs:79-83 | no user read from a file has a comma in its name or hash |
| LocalAuth.SplitPiecesHaveNoSeparator | Auth/LocalAuthService.cs:79 | splitting at a character leaves that character in no piece |
| Strings.Split | Auth/LocalAuthService.cs:76-79 | splitting always gives at least one piece |
| Strings.SplitJoin | Auth/LocalAuthService.cs:76-79 | joining the pieces with the separator gives back the text |
| Strings.SplitAfterHead | Auth/LocalAuthService.cs:76-79 | a head without the separator's first character is the first piece |
| ReceiptItems.SetQuantity | Models/ReceiptItem.cs:8-17 | the setter stores the quantity, keeps name and unit price, and raises Quantity then TotalPrice |
| ReceiptItems.TotalPrice | Models/ReceiptItem.cs:21 | quantity times unit price, read afresh; SetQuantity and SetQuantitiesEffect state that it follows every assignment |
| ReceiptItems.SetQuantitiesEffect | Models/ReceiptItem.cs:8-21 | after any run of assignments the total is the last quantity times the unit price, with two notifications per assignment |
| ExcelFiles.SetIsSelected | Models/ExcelFile.cs:13-24 | the setter stores the value and notifies only when it changes |
| ExcelFiles.SetIsSelectedTwice | Models/ExcelFile.cs:13-24 | setting the same value again raises nothing |
| ExcelFileList.OnFileCheckedChanged | Pages/ExcelFileListPage.xaml.cs:122-136 | only the sender can be selected, and only when checked; at most one file stays selected; exactly the files that changed notify |
| ExcelFileList.GetSelectedFilePath | Pages/ExcelFileListPage.xaml.cs:44-49 | the path of the first selected file, none exactly when nothing is selected |
| ExcelFileList.SaveReceiptItemsToSelectedFile | Pages/ExcelFileListPage.xaml.cs:52-114 | nothing happens without a selected path; a warning when there are no items; otherwise the selected path is written and every cell of its sheet holds the header (on an empty sheet), the items, the total with SUM anchored at D2, or what it held before |
| ExcelFileList.SaveReceiptItemsToSelectedFileCorrected | Pages/ExcelFileListPage.xaml.cs:52-114 | the same outcomes and cells, with the total's SUM anchored at this receipt's first item row |
| ExcelFileList.AppendItemsAt | Pages/ExcelFileListPage.xaml.cs:72-96 | after the header and item rows every cell holds its title, its item's field, or what it held before |
| ExcelFileList.AppendRowsAt | Pages/ExcelFileListPage.xaml.cs:72-100 | the appended sheet agrees cell by cell with the direct description of the layout |
| ExcelFileList.AppendRowsEverywhere | Pages/ExcelFileListPage.xaml.cs:72-100 | the appended sheet agrees with the direct description of the layout at every cell at once |
| ExcelFileList.StartRow | Pages/ExcelFileListPage.xaml.cs:72 | the row after the used range, 1 on an empty sheet; AppendReceiptKeepsCells states that rows above it are untouched |
| ExcelFileList.AppendReceipt | Pages/ExcelFileListPage.xaml.cs:72-100 | the sheet after the page's rows are appended; AppendReceiptHeader, AppendReceiptItem, AppendReceiptTotal and AppendedTotalCountsEarlierTotal state its cells |
| ExcelFileList.AppendRowsWellFormed | Pages/ExcelFileListPage.xaml.cs:72-100 | appending keeps every written cell inside the used range |
| ExcelFileList.AppendReceiptKeepsCells | Pages/ExcelFileListPage.xaml.cs:72 | cells above the start row are unchanged |
| ExcelFileList.AppendReceiptHeader | Pages/ExcelFileListPage.xaml.cs:75-83 | an empty sheet gets the four column titles in row 1 |
| ExcelFileList.AppendReceiptItem | Pages/ExcelFileListPage.xaml.cs:89-96 | item k lands on row first + k |
| ExcelFileList.AppendReceiptTotal | Pages/ExcelFileListPage.xaml.cs:99-100 | the row after the last item holds "Total" and SUM(D2:D{last item row}) |
| ExcelFileList.AppendedTotalCountsEarlierTotal | Pages/ExcelFileListPage.xaml.cs:100 | saving a one-item receipt twice makes the second total's range cover the first receipt's total formula |
| ExcelFileList.AppendedTotalStartsAboveItems | Pages/ExcelFileListPage.xaml.cs:100 | on a sheet that already has rows, the total's range starts above this save's first item |
| ExcelFileList.CorrectedTotal | Pages/ExcelFileListPage.xaml.cs:99-100 | corrected, the formula sums from this save's first item row to its last |
| ExcelFileList.CorrectedTotalCoversOwnItems | Pages/ExcelFileListPage.xaml.cs:89-100 | corrected, each row in the formula's range holds the total price of an item just written |
| ExcelHelper.WriteHeader | Helpers/ExcelHelper.cs:52-55 | row 1 gets the four column titles and nothing else changes |
| ExcelHelper.WriteItemRow | Helpers/ExcelHelper.cs:62-65 | one row gets name, quantity, unit price and total price, and nothing else changes |
| ExcelHelper.WriteItemsFromAt | Helpers/ExcelHelper.cs:59-67 | item k is written to row start + k, other cells are unchanged |
| ExcelHelper.WriteItemsAt | Helpers/ExcelHelper.cs:59-67 | all items are written from the start row down, other cells are unchanged |
| ExcelHelper.WriteTotal | Helpers/ExcelHelper.cs:70-71 | the total row holds "Total" and the SUM formula, other cells are unchanged |
| ExcelHelper.SumRangeOfSumFormula | Helpers/ExcelHelper.cs:71 | the formula text reads back as its row range |
| ExcelHelper.SumFormula | Helpers/ExcelHelper.cs:71 | the text `SUM(D{first}:D{last})`; SumRangeOfSumFormula states that its row range reads back |
| ExcelHelper.SaveReceiptToExcel | Helpers/ExcelHelper.cs:10-83 | no workbook exactly when there are no items |
| ExcelHelper.SavedReceiptWellFormed | Helpers/ExcelHelper.cs:47-72 | every written cell of a saved receipt lies inside its used range |
| ExcelHelper.ReceiptSheetLayout | Helpers/ExcelHelper.cs:52-71 | the saved sheet is the header, one row per item from row 2, and a total summing exactly the item rows |
| ExcelHelper.ReceiptCellAt | Helpers/ExcelHelper.cs:52-71 | each cell of the saved sheet matches the layout description |
| Sheet.SetCell | Helpers/ExcelHelper.cs:52 | writing a cell changes only that cell, and the used range becomes the smallest one covering the old range and the cell |
| Sheet.SetCellWellFormed | Helpers/ExcelHelper.cs:52 | writing a cell keeps all cells inside the used range |
| ReceiptPrinter.ReplacePolishCharsWithAscii | Printer/ReceiptPrinterService.cs:48-69 | the replace chain keeps the text's length |
| ReceiptPrinter.PolishTableShape | Printer/ReceiptPrinterService.cs:50-67 | the eighteen replaced letters lie outside ASCII and their replacements inside it |
| ReceiptPrinter.PolishKeysDistinct | Printer/ReceiptPrinterService.cs:50-67 | no letter is replaced twice |
| ReceiptPrinter.PolishImagesAreNotKeys | Printer/ReceiptPrinterService.cs:50-67 | no replacement is itself replaced later |
| ReceiptPrinter.ReplacePolishIsCharacterMap | Printer/ReceiptPrinterService.cs:50-67 | the chain of eighteen replacements is one character-by-character map |
| ReceiptPrinter.ReplacePolishOfLetter | Printer/ReceiptPrinterService.cs:50-67 | each Polish letter becomes its base letter |
| ReceiptPrinter.ReplacePolishOfAscii | Printer/ReceiptPrinterService.cs:48-69 | an ASCII character is left alone |
| ReceiptPrinter.ReplacePolishKeepsAscii | Printer/ReceiptPrinterService.cs:48-69 | ASCII text is returned unchanged |
| ReceiptPrinter.ReplacePolishIdempotent | Printer/ReceiptPrinterService.cs:48-69 | normalising twice is normalising once |
| ReceiptPrinter.ReplacePolishLeavesNoPolishLetter | Printer/ReceiptPrinterService.cs:48-69 | no Polish letter survives normalisation |
| ReceiptPrinter.ReplacePolishExample | Printer/ReceiptPrinterService.cs:55-66 | the city name with L-stroke, o-acute and z-acute is normalised to "Lodz" |
| ReceiptPrinter.PrintPayload | Printer/ReceiptPrinterService.cs:22-30 | the bytes sent to the printer; PrintPayloadLayout and the normalisation lemmas state what they hold |
| ReceiptPrinter.PrintPayloadLayout | Printer/ReceiptPrinterService.cs:22-30 | the bytes sent are ESC t 0 followed by exactly the encoding of the normalised text |
| CharTable.MapString | Pages/ProductSummaryPage.xaml.cs:186 | a table map keeps the length and maps each character through the table |
| CharTable.ReplaceChainIsMapString | Printer/ReceiptPrinterService.cs:50-67 | a chain of one-character replacements whose results are never replaced again equals the table map |
| CharTable.MapStringIdempotent | Pages/ProductSummaryPage.xaml.cs:186 | a table whose images are not keys maps a second time to the same text |
| Admin.AddProduct | Pages/AdminPage.xaml.cs:27-67 | "Please fill all fields." when a field is empty or the price blank; "Please enter a valid price." when the price fails to parse or is negative; otherwise exactly one product appended with the entered fields and Id 0, the rest unchanged |
| Admin.AddFieldsMissing | Pages/AdminPage.xaml.cs:36-41 | the add form is incomplete when a text is null or empty or the price is blank; AddProduct states that exactly then it answers "Please fill all fields." |
| Admin.AddAcceptsDigitPrice | Pages/AdminPage.xaml.cs:44-67 | a price written as digits, "0" included, is accepted at its value |
| Admin.DeleteProduct | Pages/AdminPage.xaml.cs:101-126 | nothing changes unless the delete is confirmed for a product; then exactly that product is removed, the rest kept in order, and the list saved; a product no longer in the list removes nothing, yet the list is still saved |
| Admin.Edited | Pages/AdminEditPage.xaml.cs:43-47 | the edited product keeps its Id |
| Admin.EditFieldsInvalid | Pages/AdminEditPage.xaml.cs:32-40 | the edit form is refused when a text is blank, no type is picked or the price does not parse; SaveChanges states that exactly then it fails |
| Admin.FirstWithId | Pages/AdminEditPage.xaml.cs:51 | the position of the first product with the Id, none exactly when no product has it |
| Admin.SaveChanges | Pages/AdminEditPage.xaml.cs:29-69 | rejected with the Polish message exactly when a field is blank, no type is picked or the price fails to parse; else the first product with the same Id takes the form's fields, others unchanged, or the product is appended |
| Admin.SaveChangesKeepsIds | Pages/AdminEditPage.xaml.cs:51-60 | an edit never changes an Id in the stored list |
| Admin.NegativePriceOnlyEditable | Pages/AdminEditPage.xaml.cs:32-40 | a negative price is refused when adding and saved when editing |
| Admin.SaveChangesHitsOwnProduct | Pages/AdminEditPage.xaml.cs:51-60 | with distinct Ids, saving a stored product changes that product only |
| Admin.AddedProductsShareIdZero | Pages/AdminPage.xaml.cs:57-64 | two added products both have Id 0, and editing the second overwrites the first |
| Admin.MaxId | Pages/AdminPage.xaml.cs:57-64 | every Id is at most the maximum, which is 0 for an empty list |
| Admin.AddProductCorrected | Pages/AdminPage.xaml.cs:27-67 | the same outcomes as adding, with the new Id one above every stored Id |
| Admin.AddCorrectedKeepsIdsUnique | Pages/AdminPage.xaml.cs:57-67 | the corrected add keeps Ids distinct |
| Admin.AddedCorrectedProductsEditSeparately | Pages/AdminEditPage.xaml.cs:51-60 | with the corrected add, editing the second product leaves the first alone |
| ProductsPage.GetItemPrice | Pages/ProductsPage.xaml.cs:65-75 | no price is negative |
| ProductsPage.GetItemPriceIsTable | Pages/ProductsPage.xaml.cs:67-73 | Apple 0.99, Banana 0.49, Orange 0.79, Watermelon 3.00, any other name 0 |
| ProductsPage.StoredPriceIgnored | Pages/ProductsPage.xaml.cs:56-60 | a stored product outside the table adds nothing to the total, whatever its own price |
| ProductsPage.OnItemClicked | Pages/ProductsPage.xaml.cs:52-63 | a click adds one priced line to the receipt and its price to the total |
| ProductsPage.ClicksEffect | Pages/ProductsPage.xaml.cs:56-60 | after any clicks the total has grown by the sum of their prices and the receipt has one line per click, in click order |
| ProductsPage.SumPricesNonNegative | Pages/ProductsPage.xaml.cs:65-75 | a sum of prices is never negative |
| ProductsPage.TotalNeverDecreases | Pages/ProductsPage.xaml.cs:60 | from an empty till the total is the sum of the clicked prices and never goes down |
| ProductsPage.ClicksSplit | Pages/ProductsPage.xaml.cs:52-63 | clicking one run and then another is clicking both in order |

## Left out

- File and workbook I/O are not modelled: `users.txt`, `products.json`, EPPlus packages, `SaveAsync`, directory choice, the timestamped file name. The stored content is a parameter and a result. Styles and `AutoFitColumns` are not modelled either.
- The UI is not modelled: alerts, labels and their colours, `DisplaySummaryInGrid`, `DisplayOrderCards`, button creation, navigation, `ClearInputFields`, and the currency formatting of labels. Console logging in `LoginAsync` is also left out.
- `async` interleavings are not modelled. Each event handler runs to completion on the state it is given.
- `HashPassword` (SHA-256 and Base64) is a function parameter. `Environment.NewLine` is a non-empty parameter.
- `Encoding.ASCII.GetBytes` is a function parameter. The printer spooler call and its error logging are left out.
- Object identity is modelled by position. This applies to the product deleted by `List.Remove` and to the file whose checkbox changed.
- The try/catch around the admin storage calls is not modelled, because the storage is a parameter.
- `Numbers.ParseDecimal`: reads numbers as the invariant culture does, with '.' as the decimal point, and accepts only an optional leading sign, digits and an optional point with digits. `decimal.TryParse(string, out decimal)` uses `NumberStyles.Number` in the current culture. That style also accepts leading and trailing white space, a trailing sign ("5-" reads as -5) and group separators, and it rejects exponents and currency symbols as the model does. Under a culture whose decimal separator is ',' (pl-PL, for one), "3.5" fails and "3,5" parses. The 28-digit range and rounding of `decimal` are not modelled.
- `Admin.SaveChanges`: because of the restricted number grammar, it refuses a price written "5-", which the edit page would save as -5.
- `Orders.DecimalCellReadsDifferently`: holds for '.' as the decimal point, that is, under the invariant culture; the model says nothing about a culture that uses ','.
- `Numbers.ParseInt32`: does not accept the leading and trailing white space that `int.TryParse` allows.
- `Numbers.IsDigit`: only '0' to '9'. `char.IsDigit` also accepts other Unicode decimal digits.
- `Strings.EqualsIgnoreCase`: folds only ASCII letters. Ordinal case-insensitive comparison folds all letters.
- `Sheet.Grid` and `Sheet.Worksheet`: the used range is taken to start at A1 on both the read and the write side. `Dimension.Rows` and `Dimension.Columns` are then the last used row and column, and `Sheet.SetCell` grows them as EPPlus does. For a receipt file whose data starts below row 1 or right of column A, `Dimension.Rows` is smaller than modelled, and `ExcelFileList.StartRow` would differ from the page's start row.
- Decimal overflow in sums and products is not modelled, because `real` is unbounded.

## Findings

| source | as written | input that shows it | evidently intended | confidence | as-written member | corrected member |
|---|---|---|---|---|---|---|
| Pages/ExcelFileListPage.xaml.cs:100 | the total formula is always `SUM(D2:D{last})`, even when the receipt is appended below earlier receipts | save a one-item receipt twice into an empty sheet: the second total is `SUM(D2:D4)`, which covers the first receipt's item and its own total formula in D3 | sum the item rows of this receipt, `SUM(D{first}:D{last})` | medium, not executed | ExcelFileList.AppendedTotalCountsEarlierTotal | ExcelFileList.CorrectedTotalCoversOwnItems |
| Pages/AdminPage.xaml.cs:57-64 | a new product's `Id` is never set, so every added product has Id 0, while the edit page finds the product to update by Id | add products A and B, then edit B: the first product with Id 0, A, takes B's new fields and B is unchanged | give each new product an Id not used yet, so that an edit updates the product being edited | high, not executed | Admin.AddedProductsShareIdZero | Admin.AddedCorrectedProductsEditSeparately |
