# Amazon Wishlist extraction layer, in Dafny

This project models the extraction layer of Amazon Wishlist (`amazonwish/amazonwish.py`).
A `Profile` holds a user's landing page. A `Wishlist` holds the printable rendering of one wishlist.
Each extractor method runs one fixed path query on the stored page. It then turns the selected
nodes' text, or the selected attribute strings, into a result list using plain string operations.

The model keeps the two classes and their fields (`currency`, `symbol`, `page`). It represents a
parsed page by what its queries select: `ProfilePage` and `WishlistPage` hold one sequence per
query, in document order. An element's text is an `Option<string>`, because lxml gives `None`
for an element without leading text. The extractors are methods whose `for` loops build the
result the way the source appends to `ret`. Each method is proved against the pure functions it
applies to every element:

- `Cleaner` picks the currency token. The first of JPY, EUR, CDN and GBP found in the currency
  decides it; otherwise the configured symbol is used.
- `NormalizePrice` removes the cleaner, turns commas into points and strips whitespace.
- `StripHost` removes `www.`.
- `WishlistCode` removes `regListsList`.
- `ParserEncoding` picks Latin-1 for GBP currencies and UTF-8 otherwise.

Module `PyStr` defines the Python 2 string builtins these rely on:

- `Contains` is `sub in s`.
- `Replace` is `s.replace(pat, repl)`. It is a single left-to-right pass whose output is not
  rescanned, and the empty-pattern case is modelled as well.
- `Strip` is `s.strip()`, over the Python 2.7 unicode whitespace set.

Because the output of `replace` is not rescanned, a cleaned price can still contain the cleaner.
`CleanerMaySurvive` and `HostMayKeepPrefix` show concrete inputs where this happens.

Where the project's design documentation describes behaviour the code does not have, the model
follows the code:

- `via()` does not deduplicate or sort.
- `covers()` and the photo address keep the size segment of the file name.
- `prices()` has no "Idea", "click to see price" or `.00` handling.
- `titles()` and `authors()` return the node text untouched.
- The file has no search or item-URL extractor.

## Model

| member | source | states |
|---|---|---|
| PyStr.ContainsIff | amazonwish/amazonwish.py:119-128 | Python's `in` test holds exactly when the pattern starts at some position of the string |
| PyStr.MatchesPositiveIff | amazonwish/amazonwish.py:130 | one `replace` pass substitutes something exactly when the pattern occurs |
| PyStr.ReplaceLength | amazonwish/amazonwish.py:138 | `replace` changes the length by the replacement length minus the pattern length per substituted occurrence, and in no other way |
| PyStr.ReplaceAbsent | amazonwish/amazonwish.py:130 | `replace` of a non-empty pattern that does not occur returns its input |
| PyStr.ReplaceEmptyByEmpty | amazonwish/amazonwish.py:128-130 | `s.replace('', '')` is `s` (the case of an empty configured symbol) |
| PyStr.ReplaceLeading | amazonwish/amazonwish.py:59 | a leading occurrence is replaced and the rest is processed on its own |
| PyStr.ReplaceCharAt | amazonwish/amazonwish.py:130 | replacing one character by one character rewrites position by position and keeps the length |
| PyStr.CharReplacedEverywhere | amazonwish/amazonwish.py:130 | after `replace(',', '.')` no comma is left |
| PyStr.TrimLeft | amazonwish/amazonwish.py:130 | the leading-whitespace cut gives a suffix of the input; everything cut is whitespace and the rest does not start with whitespace |
| PyStr.TrimRight | amazonwish/amazonwish.py:130 | the trailing-whitespace cut gives a prefix of the input; everything cut is whitespace and the rest does not end with whitespace |
| PyStr.Strip | amazonwish/amazonwish.py:130 | `strip()` gives a result that neither starts nor ends with whitespace |
| PyStr.StripSlice | amazonwish/amazonwish.py:130 | what `strip()` keeps is one contiguous piece of the input: a prefix of what follows the leading whitespace |
| PyStr.StripCutsWhitespace | amazonwish/amazonwish.py:130 | everything `strip()` cuts away, before and after the piece it keeps, is whitespace |
| PyStr.StripKeepsCharacters | amazonwish/amazonwish.py:130 | `strip()` introduces no character |
| PyStr.StripTrimmed | amazonwish/amazonwish.py:130 | text without surrounding whitespace is returned unchanged by `strip()` |
| PyStr.StripIdempotent | amazonwish/amazonwish.py:130 | `strip()` applied twice equals `strip()` applied once |
| AmazonWish.Latin1IffGbpOccurs | amazonwish/amazonwish.py:93-96 | the parser encoding is Latin-1 exactly when "GBP" occurs in the currency, and UTF-8 otherwise |
| AmazonWish.Cleaner | amazonwish/amazonwish.py:119-128 | the cleaner is the token of the first of JPY, EUR, CDN, GBP that the currency contains (JPY wins over EUR), else the configured symbol |
| AmazonWish.PoundCleanerIffLatin1 | amazonwish/amazonwish.py:119-128 | a Latin-1 currency without JPY/EUR/CDN gets the pound-sign cleaner; a pound-sign cleaner that is not the configured symbol implies a Latin-1 page |
| AmazonWish.NormalizePrice | amazonwish/amazonwish.py:130 | a cleaned price contains no comma and has no leading or trailing whitespace |
| AmazonWish.DecimalPoints | amazonwish/amazonwish.py:130 | the comma rewrite keeps the length, turns each comma into a point, leaves other characters alone and leaves no comma |
| AmazonWish.DeletionKeepsCharacters | amazonwish/amazonwish.py:130 | removing the cleaner introduces no character |
| AmazonWish.NormalizePriceCharacters | amazonwish/amazonwish.py:130 | every character of a cleaned price is a point or a character of the price tag |
| AmazonWish.NormalizePriceUnchanged | amazonwish/amazonwish.py:130 | a tag with no cleaner occurrence, no comma and no surrounding whitespace is returned unchanged |
| AmazonWish.EmptyCleanerRemovesNothing | amazonwish/amazonwish.py:128-130 | with an empty symbol as cleaner only the comma rewrite and the strip apply |
| AmazonWish.CleanerMaySurvive | amazonwish/amazonwish.py:130 | cleaning "EEURUR" with "EUR" gives "EUR", so the cleaner can remain in a result |
| AmazonWish.StripHost | amazonwish/amazonwish.py:138 | a host loses four characters per removed "www.", something is removed iff "www." occurs, and it is unchanged otherwise |
| AmazonWish.HostMayKeepPrefix | amazonwish/amazonwish.py:138 | "wwwww.w." becomes "www.", so a cleaned host can still contain "www." |
| AmazonWish.WishlistCode | amazonwish/amazonwish.py:59 | a code is the id shortened by 12 characters per removed "regListsList", and equals the id when the id does not contain it |
| AmazonWish.WishlistCodeOfId | amazonwish/amazonwish.py:57-59 | the id "regListsList" + code gives back the code whenever the code does not itself contain "regListsList" |
| AmazonWish.Profile.constructor | amazonwish/amazonwish.py:19-23 | stores the configured currency and symbol, and the page parsed with the encoding the currency selects |
| AmazonWish.Profile.Download | amazonwish/amazonwish.py:25-34 | the stored page is the one parsed with Latin-1 for GBP currencies and with UTF-8 otherwise |
| AmazonWish.Profile.BasicInfo | amazonwish/amazonwish.py:36-46 | returns every name text in order, then the first photo address iff a photo was selected; its length is the number of names plus 0 or 1 |
| AmazonWish.Profile.WishlistsDetails | amazonwish/amazonwish.py:53-64 | returns one code per block id, each with "regListsList" removed, and, separately, one size text per size span; the two lengths are independent |
| AmazonWish.Wishlist.constructor | amazonwish/amazonwish.py:84-86 | reads the configuration and then stores the page parsed with the encoding the currency selects |
| AmazonWish.Wishlist.ReadConfig | amazonwish/amazonwish.py:78-82 | sets currency and symbol from the configuration and returns it |
| AmazonWish.Wishlist.Download | amazonwish/amazonwish.py:88-97 | the stored page is the one parsed with Latin-1 for GBP currencies and with UTF-8 otherwise |
| AmazonWish.Wishlist.Authors | amazonwish/amazonwish.py:99-105 | one entry per byline span, in order, each the span's text (absent text kept as `None`) |
| AmazonWish.Wishlist.Titles | amazonwish/amazonwish.py:107-113 | one entry per title node, in order, each the node's text (absent text kept as `None`) |
| AmazonWish.Wishlist.Prices | amazonwish/amazonwish.py:115-131 | one cleaned entry per price node, in document order, with no comma and no surrounding whitespace; a node without text makes the call fail at the first such node |
| AmazonWish.Wishlist.Via | amazonwish/amazonwish.py:133-139 | one entry per via node, in order, each its text with every non-overlapping "www." removed, not deduplicated or sorted; a node without text makes the call fail at the first such node |
| AmazonWish.Wishlist.Covers | amazonwish/amazonwish.py:141-147 | the selected picture addresses, unchanged and in order |

## Left out

- Fetching and parsing: `etree.parse` on a URL (amazonwish/amazonwish.py:34, 97) is network I/O plus an external HTML parser. It is a `fetch` parameter from the chosen encoding to the parsed page.
- URL construction (amazonwish/amazonwish.py:29, 92) only feeds that network call. Because of this, the user id and the domain do not appear in the model.
- XPath evaluation is a foreign library call. Each query result is a field of the page datatype.
- `countryParams` comes from the `config` module, which is not part of this model. Its result is the `CountryParams` argument of the constructors.
- `Profile.readConfig` (amazonwish/amazonwish.py:15-17) only returns that lookup's result. With the lookup outside the model it is the identity, so the constructor takes the result directly.
- `Profile.wishlists` (amazonwish/amazonwish.py:48-51) returns the raw lxml elements with no processing.
- `Wishlist.total_expenses` (amazonwish/amazonwish.py:149-155) relies on `float()` parsing, float summation and `str()` of a float. That is floating-point numerics.
- The error path of `prices()` and `via()` is modelled by value. Python raises `AttributeError` when a node's text is `None`. The model instead returns `Failure(NoText(i))` for the first such node, and no partial list.
- Python 2 byte strings are not modelled. All text is treated as unicode, and `strip()` uses the unicode whitespace set. A pure-ASCII byte string would be stripped of ASCII whitespace only.
