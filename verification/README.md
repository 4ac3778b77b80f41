# OrderAnalyzer core, in Dafny

OrderAnalyzer loads purchase orders and reports three of them: the order with
the highest total, the order with the highest quantity, and the order whose
discount takes the most off its full price. This project models the core of
that program:

- `OrderModel` (`order.dfy`): the `Order` record, its full price
  `Total = Quantity * UnitPrice` and its discounted price
  `TotalWithDiscount = Total * (1 - PercentageDiscount / 100)`. Prices are
  exact decimals in the program and exact `real`s here. Nothing is
  range-checked, in the program or in the model: quantities may be negative
  and discounts may lie outside [0, 100].
- `Reductions` (`reductions.dfy`): the three forward scans
  `GetOrderWithHighestTotal`, `GetOrderWithHighestQuantity` and
  `GetOrderWithMaxDiscountDifference`. Each is a method with the same loop as
  the program: a running `highest`, initially absent (`None` for `null`),
  replaced when it is absent or the current key is strictly greater. Each
  also returns a ghost `winner` index, so "the earliest order achieving the
  maximum" can be stated even when the list holds equal orders. The methods
  are proved against `FirstArgMax`, a recursive reference definition of the
  scan, and against `IsFirstMax`, the declarative "no key is greater and
  every earlier key is smaller". Both are stated over `Key`, a plain
  specification function that picks the compared value for each scan: the
  full price (Program.cs line 80), the quantity (line 93) or the discount
  difference (lines 106-107).
- `Wrappers` (`wrappers.dfy`): the `Option` type.

The list of orders is a `seq<Order>`, an immutable value, so "the scans only
read the list" holds by construction: no scan can change its contents or
order.

## Model

| member | source | states |
|---|---|---|
| `OrderModel.Total` | Program.cs:143-146 | the full price, quantity times unit price as an exact real; zero exactly when the quantity or the unit price is zero, and non-negative when both are |
| `OrderModel.TotalWithDiscount` | Program.cs:148-151 | the discounted price, full price times (1 - discount / 100); for a non-negative full price and a discount in [0, 100] it lies between 0 and the full price |
| `OrderModel.DiscountDifference` | Program.cs:106-107 | the amount the discount takes off, full price minus discounted price; it equals full price times discount / 100 for every order |
| `OrderModel.NoDiscountKeepsTotal` | Program.cs:148-151 | a 0% discount leaves the price equal to the full price and the difference zero |
| `OrderModel.FullDiscountIsFree` | Program.cs:148-151 | a 100% discount makes the discounted price zero and the difference the whole full price |
| `OrderModel.DiscountOutOfRange` | Program.cs:138-151 | unchecked discounts on a positive full price: a negative one takes off a negative amount and makes the discounted price exceed the full price; one above 100 takes off more than the full price and makes it negative |
| `OrderModel.WidgetExample` | Program.cs:143-151 | a single worked example: 10 items at 2.50 with a 10% discount cost 25.00 in full and 22.50 after the discount |
| `Reductions.FirstArgMax` | Program.cs:77-85 | the scan gives no index exactly for the empty list, and otherwise the first index whose key is maximal |
| `Reductions.FirstMaxIsUnique` | Program.cs:80 | at most one index is the first maximum, so the strict comparison fixes the result |
| `Reductions.FirstArgMaxIsFirstMax` | Program.cs:77-85 | the scan returns index i if and only if i is the first maximum |
| `Reductions.TieGoesToEarliest` | Program.cs:80 | an order tying with an earlier one is never chosen |
| `Reductions.FirstArgMaxIsMaximal` | Program.cs:77-85 | for a list containing an order, the scan chooses an index, and the key there is at least that order's |
| `Reductions.GetOrderWithHighestTotal` | Program.cs:75-86 | none exactly for the empty list; otherwise an element of the list whose total is at least every total, the earliest among equal maxima |
| `Reductions.GetOrderWithHighestQuantity` | Program.cs:88-99 | none exactly for the empty list; otherwise an element of the list whose quantity is at least every quantity, the earliest among equal maxima |
| `Reductions.GetOrderWithMaxDiscountDifference` | Program.cs:101-113 | none exactly for the empty list; otherwise an element of the list maximising full minus discounted price, the earliest among equal maxima |

## Left out

- `Main` (Program.cs:11-52): locating the file, the existence check, console output and the top-level exception handler are I/O and are not modelled.
- `GetSourceDirectory` (Program.cs:54-57): it only returns the compile-time source path; there is nothing to specify.
- `ReadOrders` (Program.cs:58-73): reading the file and parsing it with the CsvHelper library are file I/O and foreign code; the model starts from the loaded list.
- `PrintOrder` (Program.cs:115-131): console output with locale-dependent currency formatting.
- Decimal limits: every decimal operation of the program (the product in `GetTotal`, the division, subtraction and product in `GetTotalWithDiscount`, the subtraction in `GetOrderWithMaxDiscountDifference`) may round to 28-29 significant digits or throw on overflow; the model's amounts are exact and unbounded. Rounding can break the identity stated by `OrderModel.DiscountDifference` and can create or break ties between keys.
- Null entries: a list element that is `null` would make the program throw when its total is computed; the loader never produces one and the model's list cannot hold one.
- Aliasing: the program's orders and list are mutable objects; nothing in the program mutates them after loading, so the model treats both as values.
- `Id`, `ArticleName` and `Buyer` are carried as fields but take part in no computation.
