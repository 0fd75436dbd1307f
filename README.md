# Cake It Easy: a verified model of the storefront's bag and checkout core

This project is a Dafny model of the Django storefront *Cake It Easy* (a cake shop
with a session shopping bag, a Stripe checkout and a few catalogue tools). It
models the code that decides what a customer pays and what is stored, and proves
what that code promises:

- **The shopping bag.** The bag key codec (`str(pid)` or `pid_optionid`) and the add, adjust and
  remove views, which update the session bag in place. The deposit product, which is always held
  at quantity 1. The `WELCOME10` discount, quantised to cents with round-half-even.
  Modules: `BagKey`, `BagViews`, `SessionState`.
- **Checkout pricing.** The decoding and pricing of every bag entry, the subtotal, the
  pre-discount and grand totals, and the payment reference. The order and its line items,
  and the clearing of the session. The order pages' access rule.
  Module: `CheckoutViews`.
- **Order arithmetic.** `grand_total`, `update_total` and the line-item price fallback.
  Module: `CheckoutModels`, with `Order` and `OrderLineItem` as classes whose fields change in place.
- **The payment webhook.** It sets the paid flag on the order whose payment intent matches.
  Module: `Webhooks`.
- **The two older bag summaries.** A strict one and a lenient one.
  Modules: `BagContexts`, `BagContextProcessors`.
- **Catalogue tools.** The unique slug backfill (`CategorySlug`), the image-map generator
  (`ImageMap`), the description patcher (`ApplyDescriptions`), the Cloudinary thumbnail rewriter
  (`Thumbs`) and the filename suffix stripper (`RenameImages`).
- **Forms and views.** The phone, postcode, country and price validators and the forms' widget
  rules (`ProfileForms`, `CheckoutForms`, `ProductForms`, `FormFields`). The catalogue query
  parameters (`ProductViews`). The custom-cake access rules (`CustomCakeViews`). The robots.txt
  and sitemap text (`SiteViews`). The environment-derived settings (`Settings`).
- **Shared definitions.** Python's string operations over ASCII (`Text`: `strip`, `split`, `join`,
  `lower`, `upper`, `title`, `find`, and `int()` including its `_` digit separators). An
  insertion-ordered dict as a sequence of pairs with distinct keys (`PyDict`). The catalogue
  records (`Catalog`). `Option` and `Result` (`Wrappers`).

Money is integer cents throughout. A Decimal `quantize(Decimal("0.01"))` under the default
context is division by ten with round-half-even. Database tables are sequences in primary-key
order or maps keyed by id. A view's answer is an outcome tag (done, 404, 403, server error)
beside the state it leaves. Collaborators whose code is not part of this model are parameters:
`slugify`, `reverse` (a route table), the set iteration order of the image-map stems, the
outputs of `bag_contents`, and the prices of a `ProductOption`.

Two places where the code behaves differently from what its surroundings suggest:

- `bag/contexts.py:13` passes an option-suffixed key such as `5_3` to `int()`. Python reads
  underscores between digits as separators, so the key names product 53 rather than raising
  (`BagContexts.SuffixedKeyReadAsOtherProduct`).
- `generate_image_map.py:111` reads a NULL image as the text `"None"` (see Findings).

## Model

| member | source | states |
|---|---|---|
| RenameImages.TrySuffix | rename_images.py:8 | with group 2 starting at `k`, the end it returns is the longest `_[a-z0-9]+` run after which `\.\w+$` matches; none means no such end exists |
| RenameImages.TryAt | rename_images.py:8 | at a lazy group-1 end `k`, the match tries the suffix group first and the empty group second; a result is an extension start, and none means neither alternative matches |
| RenameImages.Search | rename_images.py:8 | the lazy `(.*?)` stops at the first position from which the rest matches, and never crosses a newline |
| RenameImages.ExtUnique | rename_images.py:8 | the `\.\w+$` group can start at only one position |
| RenameImages.SearchStops | rename_images.py:8 | the search returns the first position at which the rest matches |
| RenameImages.SearchFinds | rename_images.py:8 | on a single line that ends in a dot and word characters, the search always succeeds |
| RenameImages.MatchHasNoNewline | rename_images.py:8 | a name containing a newline never matches, because `.` does not cross newlines |
| RenameImages.MatchIff | rename_images.py:8-9 | a name matches exactly when it is one line and ends in a dot followed by word characters |
| RenameImages.MatchGroups | rename_images.py:8 | a match ends with the extension group, preceded either by nothing or by a `_[a-z0-9]+` group |
| RenameImages.SuffixRemoved | rename_images.py:8-10 | when the lazy stem can stop before a `_[a-z0-9]+` run that precedes the extension, the new name is the name with that run removed |
| RenameImages.NoSuffixKept | rename_images.py:8-10 | when no suffix run precedes the extension, the new name is the name itself |
| RenameImages.NewNameSpec | rename_images.py:8-10 | the new name is groups 1 and 3 concatenated; it differs from the name exactly when group 2 matched, and is shorter by that group's length |
| RenameImages.SuffixDropped | rename_images.py:7-10 | stem, `_`, a lower-case alphanumeric run, a dot and a word extension becomes stem, dot, extension |
| RenameImages.CupcakeExample | rename_images.py:7-10 | `choco-swirl-cupcake_llaewg.jpg` becomes `choco-swirl-cupcake.jpg` |
| RenameImages.NonLowAlnumBeforeExtKept | rename_images.py:8-10 | a matching name whose extension is not preceded by `[a-z0-9]` keeps its name |
| RenameImages.UpperSuffixKept | rename_images.py:8-10 | an upper-case suffix such as `cake_AB.jpg` is not removed |
| RenameImages.NonWordExtensionNotMatched | rename_images.py:8-9 | a name whose last dot is followed by a non-word character does not match and is skipped |
| RenameImages.NoDotNotMatched | rename_images.py:8-9 | a name without a dot does not match and is skipped |
| RenameImages.TwoNamesOneTarget | rename_images.py:8-14 | `cake_1.jpg` and `cake_2.jpg` both map to `cake.jpg`, so the second rename targets the first one's result |
| RenameImages.PathJoinInjective | rename_images.py:11-13 | joining the same folder to two names gives equal paths exactly when the names are equal |
| RenameImages.RenameOfSpec | rename_images.py:8-14 | a file is renamed at most once: exactly when it matches with a non-empty suffix group, and then from its path to the path of its new name |
| RenameImages.PlanSpec | rename_images.py:6-14 | every planned rename belongs to a listed name whose new name differs, and goes from that name's path to the new name's path |
| RenameImages.RenameAll | rename_images.py:6-15 | the loop over the listing produces exactly the planned renames, in listing order |
| Thumbs.EmptyUrlUnchanged | products/templatetags/thumbs.py:13-14 | an empty URL comes back as it was |
| Thumbs.NonCloudinaryUnchanged | products/templatetags/thumbs.py:16-24 | a URL without `/upload/` or without the Cloudinary host comes back as it was |
| Thumbs.SplitAtFirst | products/templatetags/thumbs.py:17-19 | splitting at `/upload/` gives the text before the first marker and, second, the text up to the next marker |
| Thumbs.FirstPieceSpec | products/templatetags/thumbs.py:17-19 | the second piece of the split is a prefix of the text after the first marker, holds no marker, and ends at the next marker or at the end |
| Thumbs.RewriteAfterFirstMarker | products/templatetags/thumbs.py:16-21 | a Cloudinary URL is returned unchanged when the piece after the first marker starts with `c_` or `w_`; otherwise the options and a slash are inserted after the first marker and anything from a second marker on is dropped |
| Thumbs.SecondMarkerDropped | products/templatetags/thumbs.py:17-21 | for a URL with two markers, the rewritten URL ends with the piece between them: the rest after the second marker is lost |
| Thumbs.MarkerAfterPrefix | products/templatetags/thumbs.py:17 | with no marker inside the prefix, the first marker sits right after it |
| Thumbs.FirstPieceBeforeMarker | products/templatetags/thumbs.py:19 | the second piece ends where the next marker starts |
| Thumbs.FirstPieceKeepsFront | products/templatetags/thumbs.py:19-20 | the piece after the marker keeps the first two characters the `startswith` tests look at |
| Thumbs.HasOptionsByFront | products/templatetags/thumbs.py:20 | the options test depends only on the first two characters |
| Thumbs.OptionsFront | products/templatetags/thumbs.py:20 | options that start with `c_` or `w_` have no slash in their first two characters |
| Thumbs.MarkedPiece | products/templatetags/thumbs.py:19-21 | after options are inserted, the piece after the marker starts with those options, so it passes the options test |
| Thumbs.SecondPassSeesOptions | products/templatetags/thumbs.py:17-20 | a URL rewritten once has, after its first marker, a piece that passes the options test |
| Thumbs.RewriteKeepsFirstMarker | products/templatetags/thumbs.py:21 | the rewrite keeps the first marker at the same position |
| Thumbs.MarkedUrlUnchanged | products/templatetags/thumbs.py:19-24 | a URL whose piece after the marker already starts with options comes back as it was |
| Thumbs.IdempotentWhenOptionsMarked | products/templatetags/thumbs.py:7-24 | with options starting `c_` or `w_`, applying the filter twice gives the same URL as applying it once |
| Thumbs.RewrittenUrlStable | products/templatetags/thumbs.py:16-21 | a URL the filter has rewritten is a fixed point of the filter |
| Thumbs.DefaultOptionsIdempotent | products/templatetags/thumbs.py:7 | with the default options `w_600,...`, the filter is idempotent |
| BagContexts.StrictItem | bag/contexts.py:12-19 | an entry yields an item exactly when its key parses as an integer naming a stored product and its quantity is a number; the item holds that product, the quantity and price times quantity |
| BagContexts.StrictItems | bag/contexts.py:12-20 | the whole bag yields items exactly when every entry is accepted, one item per entry |
| BagContexts.AllAcceptedSnoc | bag/contexts.py:12 | every entry is accepted exactly when all but the last are and the last is |
| BagContexts.StrictItemsAt | bag/contexts.py:12-19 | item `i` is entry `i` priced on its own |
| BagContexts.ValueSumOfAccepted | bag/contexts.py:26 | when every entry is accepted, `sum(bag.values())` equals the sum of the items' quantities |
| BagContexts.BagContents | bag/contexts.py:6-27 | the context processor raises (a server error) exactly when some entry is not accepted; otherwise it returns the items in bag order, their line totals' sum and their quantities' sum |
| BagContexts.Summarize | bag/contexts.py:12-27 | the loop over the bag's entries computes what `BagContents` promises |
| BagContexts.SuffixedKeyReadAsOtherProduct | bag/contexts.py:13 | the option-suffixed key `5_3` is read by `int()` as product 53, not rejected |
| BagContexts.SuffixedKeyParses | bag/contexts.py:13 | Python's `int("5_3")` is 53 |
| BagContextProcessors.BagTotals | bag/context_processors.py:3-12 | the header count adds every quantity `int()` accepts and skips the rest; the total is always zero |
| BagContextProcessors.LenientCountIgnoresKeys | bag/context_processors.py:6-10 | the count depends only on the quantities, not on the keys |
| BagContextProcessors.LenientCountOfAccepted | bag/context_processors.py:6-10 | for a bag the strict processor accepts, the header count equals the strict item count |
| BagContextProcessors.UnconvertibleEntrySkipped | bag/context_processors.py:7-10 | an entry whose quantity `int()` rejects leaves the header count unchanged, while the strict processor fails on it |
| Webhooks.MatchCountPositive | checkout/webhooks.py:48 | some order carries the reference exactly when the count of such orders is positive |
| Webhooks.MatchCountTwo | checkout/webhooks.py:48 | two different orders carrying the reference make the count at least two, which `get` rejects |
| Webhooks.StripeWebhook | checkout/webhooks.py:11-58 | it answers 200 without a secret, 400 when verification fails, 500 when several orders share the intent id, and 200 otherwise; the single order matching a succeeded event's intent becomes paid and every other paid flag stays |
| Webhooks.DeliverTwice | checkout/webhooks.py:11-58 | a redelivered event gets the same answer and leaves the paid flags as the first delivery left them |
| BagKey.DecodeEncode | bag/views.py:77 | every key the add view writes, `str(product_id)` or `product_id_option_id`, is read back by the checkout pricing loop as the same product and option |
| BagKey.DecodeDropsOptionOfLongKey | checkout/views.py:61-63 | a key with three or more `_`-separated pieces keeps its product and loses its option |
| BagViews.AddQuantity | bag/views.py:54-58 | the quantity added is at least 1, and equals the posted integer whenever that is at least 1 |
| BagViews.PostedQuantityOfIntToString | bag/views.py:54-57 | a posted quantity written as an integer is read as that integer |
| BagViews.DivTenHalfEvenIsNearest | bag/views.py:228 | the discount is a tenth of the subtotal rounded to the nearest cent, with ties going to an even number of cents |
| BagViews.Welcome10Bounds | bag/views.py:227-228 | for a non-negative subtotal the WELCOME10 amount lies between 0 and the subtotal |
| BagViews.DiscountAfterApplySpec | bag/views.py:226-236 | a discount is stored exactly when the code is WELCOME10 and the rounded tenth is positive (subtotal of at least 6 cents); the stored amount is then positive |
| BagViews.AddedBagSpec | bag/views.py:82-100 | adding stores 1 for the deposit and the stored quantity plus the added one otherwise; a stored non-number makes the add raise; every other key keeps its value |
| BagViews.AdjustedBagSpec | bag/views.py:144-171 | adjusting to a quantity of 0 or less removes the key; otherwise it stores the quantity, or 1 for the deposit; every other key keeps its value |
| BagViews.RemovedBagSpec | bag/views.py:193-194 | removing leaves the key absent and every other key with its value |
| BagViews.AddKeySpec | bag/views.py:62-77 | the key the add view builds names the product; it names an option exactly when the product is a cupcake and the first posted option field parses to the id of a stored option of that product, and then that id; otherwise it names no option |
| BagViews.AddAdjustRemoveFlow | bag/tests/test_views.py:18-31 | adding 2 to an empty bag stores 2; adjusting to 1 stores 1; removing leaves the bag empty |
| BagViews.GetBag | bag/views.py:30-32 | the session holds a bag afterwards: the old one, or an empty one if there was none |
| BagViews.AddToBag | bag/views.py:40-111 | a non-POST or an unknown product changes nothing (404 for the latter); otherwise the bag becomes the added bag under the built key, or the view fails with the bag unchanged when the stored quantity is not a number or the posted option id is not an integer |
| BagViews.AdjustBag | bag/views.py:114-174 | a non-POST or an unknown product changes nothing; otherwise the bag becomes the adjusted bag under the option key at the posted quantity, where an unparseable quantity counts as 1 |
| BagViews.RemoveFromBag | bag/views.py:177-201 | an unknown product changes nothing; otherwise the key built from the posted option is removed when present |
| BagViews.ApplyDiscount | bag/views.py:206-241 | a non-POST or a code that strips to nothing leaves the discount; otherwise the discount becomes the one WELCOME10 earns on the subtotal, or none |
| BagViews.RemoveDiscount | bag/views.py:244-249 | the discount is cleared whatever the request |
| CheckoutViews.SessionItems | checkout/views.py:50-95 | the items are the priced lines of the session bag in bag order, and the subtotal is the sum of their line totals |
| CheckoutViews.PriceBag | checkout/views.py:59-93 | the loop over the bag's entries yields the priced lines and their sum |
| CheckoutViews.AddEntry | checkout/views.py:60-93 | one pass of the loop body extends the priced lines and the subtotal by the next entry |
| CheckoutViews.PriceOne | checkout/views.py:60-88 | one entry is priced, or skipped when its key or quantity does not convert or its product is unknown, exactly as the pricing function says |
| CheckoutViews.PricedLinesSnoc | checkout/views.py:59-91 | a skipped entry adds no line, and a priced one adds its line at the end |
| CheckoutViews.SubtotalSnoc | checkout/views.py:93 | adding a line adds its line total to the subtotal |
| CheckoutViews.PricedLinesWellPriced | checkout/views.py:59-91 | at most one line per entry; each line's product is stored, its option belongs to that product, its unit price is the option's pack price or the product's price, and its line total is unit price times quantity |
| CheckoutViews.PriceEntryOfPlainLine | checkout/views.py:61-80 | a plain key of a stored product prices at the product's price |
| CheckoutViews.PriceEntryOfOptionLine | checkout/views.py:61-80 | an option key prices at the option's pack price when the option id is non-zero and the option belongs to the product; an option id of 0 falls back to the product price |
| CheckoutViews.SubtotalAppend | checkout/views.py:93 | the subtotal of two runs of lines is the sum of their subtotals |
| CheckoutViews.SubtotalNonNegative | checkout/views.py:79-93 | lines with non-negative prices and quantities give a non-negative subtotal |
| CheckoutViews.CheckoutTotals | checkout/views.py:112-120 | the subtotal is the bag context's total, else the items' subtotal; delivery, discount amount and discount code are the context's, else 0, 0 and empty; the pre-discount total adds the delivery; the grand total is the pre-discount total minus the discount, floored at 0 |
| CheckoutViews.PaymentMatchesOrder | checkout/views.py:234-237 | a payment is requested only for a positive grand total, and then for the saved order's own grand total in cents |
| CheckoutViews.PaymentReferenceSpec | checkout/views.py:125-130 | the reference is the client secret up to its first `_secret`, or empty when there is none, and never contains `_secret` |
| CheckoutViews.PaymentReferenceOfSecret | checkout/views.py:125-130 | a secret built as an id, `_secret` and anything else gives back the id |
| CheckoutViews.NamePartsSpec | checkout/views.py:161-167 | a blank full name saves nothing; otherwise the first name is one word, and the first name followed by the words of the last name gives back the words of the full name |
| CheckoutViews.FirstWordAndRest | checkout/views.py:163-167 | a list of words is its first word followed by the words of the rest joined by single spaces |
| CheckoutViews.OrderPage | checkout/views.py:266-287 | an unknown order is 404; staff and the order's owner see it; anyone else is refused |
| CheckoutViews.Checkout | checkout/views.py:98-187 | with nothing priceable nothing changes; otherwise the removed-discount notice is consumed, and a valid POST stores an order for the user with the payment reference, the bag, the pre-discount total, the discount and one line item per priced line at its captured price, then empties the bag and drops the discount |
| CheckoutViews.PlaceOrder | checkout/views.py:125-184 | the order is created from the totals, the reference and the bag as it stands, with its line items, and the bag and discount are cleared |
| CheckoutViews.CreateLineItems | checkout/views.py:145-152 | one saved line item per priced line, in order, with that line's product, option and quantity, priced at its captured unit price after the save rule |
| CheckoutViews.MirrorSnoc | checkout/views.py:145-152 | a line item saved from the next priced line extends the mirror by one |
| CheckoutModels.SavedPriceIdempotent | checkout/models.py:133-144 | saving twice settles on the same price as saving once |
| CheckoutModels.OrderLineItem.constructor | checkout/views.py:146-152 | a new line item holds the product, option, quantity and captured price it was created with |
| CheckoutModels.OrderLineItem.Save | checkout/models.py:126-147 | a positive captured price is kept; a missing, zero or negative one becomes the option's price when truthy, else the product's price; afterwards the line total is price times quantity |
| CheckoutModels.LineTotalsAppend | checkout/models.py:74-78 | the sum of line totals over two runs of items is the sum of the two sums |
| CheckoutModels.LineTotalsOfSaved | checkout/models.py:74-78 | for saved items, the sum of line totals is the sum of price times quantity |
| CheckoutModels.Order.constructor | checkout/views.py:132-143 | a new order holds the owner, totals, discount, reference and bag it was created with, unpaid and without line items |
| CheckoutModels.Order.UpdateTotal | checkout/models.py:67-79 | the order total becomes the sum of the line items' totals (0 with none), and nothing else changes |
| CheckoutModels.GrandTotalSpec | checkout/models.py:57-65 | the grand total plus the discount is the order total, and the grand total is negative exactly when the discount exceeds the order total: there is no floor |
| CheckoutModels.GrandTotalAfterUpdate | checkout/models.py:57-79 | after `update_total` on saved items, the grand total is the sum of price times quantity minus the discount |
| CategorySlug.Base | products/migrations/0006_category_slug.py:10 | the base is never empty, and for a database id it is at most 60 characters: the slug of the friendly name, name or `category-<id>`, cut to 60, or `category-<id>` when that is empty |
| CategorySlug.NumeralLength | products/migrations/0006_category_slug.py:10-15 | a number no larger than the largest id plus 2 has at most 19 digits |
| CategorySlug.Candidate | products/migrations/0006_category_slug.py:14-15 | a suffixed candidate is at most 60 characters whenever its suffix is |
| CategorySlug.TrailingDigitCountOfSuffix | products/migrations/0006_category_slug.py:14-15 | a candidate ends in exactly the digits of its counter after the last `-` |
| CategorySlug.CandidatesDistinct | products/migrations/0006_category_slug.py:13-16 | two suffixed candidates of the same base are equal only for the same counter, so the loop never retries the same slug |
| CategorySlug.TakenCount | products/migrations/0006_category_slug.py:13-16 | if candidates 2 to m-1 are all taken, the taken set has at least m-2 members: the search is bounded by the set's size |
| CategorySlug.EarlierTakenAt | products/migrations/0006_category_slug.py:13 | every try before the chosen one was in the set |
| CategorySlug.PickSlug | products/migrations/0006_category_slug.py:11-16 | the slug is the first of the base, base-2, base-3, … that is not taken, non-empty for a non-empty base and at most 60 characters for a base of at most 60 |
| CategorySlug.SlugSet | products/migrations/0006_category_slug.py:6-8 | the existing set holds every non-null, non-empty slug of the table and no more members than there are categories |
| CategorySlug.WithSlug | products/migrations/0006_category_slug.py:17-18 | the category is saved with the chosen slug |
| CategorySlug.Taken | products/migrations/0006_category_slug.py:13-19 | the taken set before category k is the existing set plus the first k chosen slugs, and so grows by at most one per category |
| CategorySlug.TakenPrefix | products/migrations/0006_category_slug.py:19 | the taken set before category k does not depend on later choices |
| CategorySlug.TakenContains | products/migrations/0006_category_slug.py:19 | every earlier chosen slug and every existing slug is taken |
| CategorySlug.TakenHasExisting | products/migrations/0006_category_slug.py:6-19 | the existing slugs stay taken |
| CategorySlug.AssignSlugs | products/migrations/0006_category_slug.py:9-19 | in order, each category gets the first free candidate of its base given the existing slugs and the slugs chosen before it |
| CategorySlug.AssignedStep | products/migrations/0006_category_slug.py:13-19 | one pass of the outer loop keeps the record of choices consistent |
| CategorySlug.AddOneCard | products/migrations/0006_category_slug.py:19 | adding one slug grows the set by at most one |
| CategorySlug.TakenChainIsTaken | products/migrations/0006_category_slug.py:13-19 | the `existing` set the loop carries is the taken set at every step |
| CategorySlug.TakenChainAt | products/migrations/0006_category_slug.py:13-19 | the same, at one step |
| CategorySlug.FirstFreeDistinct | products/migrations/0006_category_slug.py:13-19 | slugs chosen this way are pairwise distinct and differ from every pre-existing slug |
| CategorySlug.BackfillSlugs | products/migrations/0006_category_slug.py:4-19 | every category, in id order, is saved with exactly one slug: the first free candidate of its base; all chosen slugs are distinct from each other and from pre-existing ones, and at most 60 characters |
| ImageMap.ImageFiles | products/management/commands/generate_image_map.py:23-31 | the kept files are exactly the walked files whose lower-cased suffix is one of the five image extensions, and no more of them |
| ImageMap.ContainsSelf | products/management/commands/generate_image_map.py:41-49 | a stem always contains itself, so the "contains" scores apply to exact matches as well |
| ImageMap.ScoreMatchLevels | products/management/commands/generate_image_map.py:33-51 | a score is one of 0, 55, 60, 85, 90 or 100 |
| ImageMap.ScoreMatchMeaning | products/management/commands/generate_image_map.py:33-51 | an exact SKU stem scores 100; a stem containing the SKU scores at least 60; the name slug itself at least 90, an underscore or dash-free variant at least 85, a stem containing it at least 55; a score is positive exactly when one of these matches |
| ImageMap.ScoreMatchNothingToMatch | products/management/commands/generate_image_map.py:37-43 | with no SKU and no name slug every stem scores 0 |
| ImageMap.WithStemMembers | products/management/commands/generate_image_map.py:94-95 | the files listed under a stem are exactly the files with that lower-cased stem |
| ImageMap.AddCandidateGet | products/management/commands/generate_image_map.py:95 | `setdefault(...).append(f)` appends f to the list of its own stem, creating it if absent, and leaves every other stem's list alone |
| ImageMap.CandidatesOfSpec | products/management/commands/generate_image_map.py:93-95 | after indexing, each stem maps to the files with that stem, in walk order, and absent stems are not keys |
| ImageMap.SetKeepsNonEmpty | products/management/commands/generate_image_map.py:95 | storing a non-empty list keeps every list in the index non-empty |
| ImageMap.CandidatesNonEmpty | products/management/commands/generate_image_map.py:93-95 | every list in the index is non-empty, so `[0]` is always defined |
| ImageMap.IndexByStem | products/management/commands/generate_image_map.py:93-95 | the loop builds exactly the index described above |
| ImageMap.ExactHit | products/management/commands/generate_image_map.py:127-131 | the first stem, in the set's iteration order, that is a key of the index; none only when no stem is a key |
| ImageMap.FileUnder | products/management/commands/generate_image_map.py:129-138 | the file taken is the first one listed under the stem, at the stem's position in the index |
| ImageMap.ExactHitIffStemIndexed | products/management/commands/generate_image_map.py:127-131 | for any set of stems and any order in which the set iterates, an exact hit exists exactly when one of the stems is a key of the index |
| ImageMap.ExactHitOfProductStems | products/management/commands/generate_image_map.py:117-131 | for the stems a product builds, an exact hit exists exactly when the lower-cased SKU (when the SKU is non-empty) or the name slug, the slug with `-` replaced by `_`, or the slug with `-` removed (when the slug is non-empty) is a key of the index; the stem hit is one of these |
| ImageMap.ScanIsMax | products/management/commands/generate_image_map.py:133-139 | the scan's score is the highest score over the index (or 0), and it has found no file exactly when that score is 0 |
| ImageMap.ScanIsFirst | products/management/commands/generate_image_map.py:135-139 | the file found is the first listed under the first stem, in index order, that reaches the highest score |
| ImageMap.HeuristicScan | products/management/commands/generate_image_map.py:133-139 | the loop computes that scan |
| ImageMap.NullImageAsWritten | products/models.py:25 | as written, a product whose image column is NULL reads as having an image called "None" |
| ImageMap.ExistingImageSpec | products/management/commands/generate_image_map.py:111-113 | the corrected test: a product has no image exactly when the column is NULL or holds only white space |
| ImageMap.FindExact | products/management/commands/generate_image_map.py:127-131 | the `for stem in stems` loop stops at the first exact hit |
| ImageMap.ProductRow | products/management/commands/generate_image_map.py:108-144 | one product's row: already-set with its image; otherwise the first indexed stem, in the iteration order of the product's SKU and name-slug stems, with score 100 or 90, else the heuristic suggestion, else no-suggestion |
| ImageMap.ExactHitSuggested | products/management/commands/generate_image_map.py:127-142 | an exact hit is always suggested, with score 100 when the stem is the SKU and 90 otherwise |
| ImageMap.ExactScoreTexts | products/management/commands/generate_image_map.py:142 | the notes read `suggested:100` and `suggested:90` |
| ImageMap.HeuristicThreshold | products/management/commands/generate_image_map.py:133-144 | without an exact hit the row says no-suggestion exactly when every stem in the index scores below 55 |
| ImageMap.AlreadySetRow | products/management/commands/generate_image_map.py:111-115 | a product with an image gets the row (sku, image, already-set) whatever the index holds |
| ImageMap.Rows | products/management/commands/generate_image_map.py:89-144 | there is one row per product, in order, each computed against the index of all walked image files with the iteration order of that product's own SKU and name-slug stems |
| ImageMap.RowsOver | products/management/commands/generate_image_map.py:108-144 | one row per product, in order, each computed with the iteration order of that product's own SKU and name-slug stems, as described for a single product |
| ApplyDescriptions.Matches | products/management/commands/apply_descriptions.py:28 | the positions of exactly the products with that name, in ascending order |
| ApplyDescriptions.FindByName | products/management/commands/apply_descriptions.py:28-31 | `objects.get(name=...)`: no match exactly when no product has the name; a single match is the one product with it; several only when two products share it |
| ApplyDescriptions.FindByNameSameNames | products/management/commands/apply_descriptions.py:28 | the lookup depends only on the names, so changing descriptions never changes which product a name finds |
| ApplyDescriptions.MatchesSameNames | products/management/commands/apply_descriptions.py:28 | the same for the list of matches |
| ApplyDescriptions.ReadFailureChangesNothing | products/management/commands/apply_descriptions.py:18-22 | a file that cannot be read or parsed raises before any product is changed |
| ApplyDescriptions.StepShape | products/management/commands/apply_descriptions.py:27-40 | one pair changes at most the description of products, and nothing in a dry run |
| ApplyDescriptions.RunShape | products/management/commands/apply_descriptions.py:26-40 | the whole loop keeps every product except its description, and a dry run changes nothing |
| ApplyDescriptions.RunPrefix | products/management/commands/apply_descriptions.py:26 | the pairs are processed in mapping order, one step each |
| ApplyDescriptions.RunAfterFailure | products/management/commands/apply_descriptions.py:26-40 | once an exception is raised (several products with one name, or a description that is not text) nothing further happens |
| ApplyDescriptions.LastPairSeesOriginal | products/management/commands/apply_descriptions.py:28-33 | since mapping keys are distinct, each pair finds the same product as in the original table, with its original description |
| ApplyDescriptions.SameOutcomeStep | products/management/commands/apply_descriptions.py:36-40 | one more pair keeps the dry run's count, missing list and exception equal to the real run's |
| ApplyDescriptions.StepsAgree | products/management/commands/apply_descriptions.py:33-40 | a dry step and a real step that see the same product and description agree on count, missing names and exception |
| ApplyDescriptions.CountsStep | products/management/commands/apply_descriptions.py:29-40 | one more pair keeps the count equal to the number of changed descriptions and the missing list equal to the unknown names |
| ApplyDescriptions.StepCounts | products/management/commands/apply_descriptions.py:29-40 | one pair adds one to the count exactly when the stripped descriptions differ, and its name to the missing list exactly when no product has it |
| ApplyDescriptions.DescriptionsStep | products/management/commands/apply_descriptions.py:37-39 | one more pair keeps every product holding its new description exactly when it differed |
| ApplyDescriptions.DescriptionAt | products/management/commands/apply_descriptions.py:33-39 | one product's description after a step: the new text when the pair names exactly it and the stripped texts differ, else unchanged |
| ApplyDescriptions.RunEffect | products/management/commands/apply_descriptions.py:24-40 | without exception, a real run counts exactly the products whose stripped description differed, lists the unknown names in mapping order, and sets exactly those descriptions to the new text; the dry run reports the same |
| ApplyDescriptions.DryRunReportsTheSame | products/management/commands/apply_descriptions.py:36-40 | the dry run changes no product and reports the same count, missing names and exception as the real run |
| ApplyDescriptions.ProductTable.constructor | products/models.py:19-25 | the table holds the given products |
| ApplyDescriptions.ProductTable.ApplyDescriptions | products/management/commands/apply_descriptions.py:15-40 | the command's effect on the product table and its report are those of the whole run on the old table |
| ApplyDescriptions.RunEntries | products/management/commands/apply_descriptions.py:24-40 | the loop's table, count, missing list and exception are those of the run |
| CheckoutForms.UpperKeepsStripped | checkout/forms.py:69 | upper-casing a stripped value leaves it stripped |
| CheckoutForms.CleanCountrySpec | checkout/forms.py:64-73 | the cleaned country is the stripped, upper-cased value; it is accepted exactly when it is empty or two characters long, and otherwise the country error is raised; a missing value cleans to "" |
| CheckoutForms.CleanCountryIdempotent | checkout/forms.py:64-73 | cleaning an accepted country again gives the same result |
| CheckoutForms.CleanCountryExamples | checkout/forms.py:64-73 | " ie " cleans to "IE", "" is accepted, "irl" is refused |
| CheckoutForms.WithClasses | checkout/forms.py:42-49 | the class pass keeps every field and its order |
| CheckoutForms.SetDefaultPlaceholder | checkout/forms.py:52-58 | setting a default placeholder keeps the set of fields |
| CheckoutForms.Placed | checkout/forms.py:52-58 | the placeholder step keeps the set of fields |
| CheckoutForms.MakeRequired | checkout/forms.py:62 | marking one field required keeps the set of fields |
| CheckoutForms.WithRequired | checkout/forms.py:61-62 | marking the listed fields required keeps the set of fields |
| CheckoutForms.AddClasses | checkout/forms.py:42-49 | the loop gives every field its Bootstrap class |
| CheckoutForms.AddRequired | checkout/forms.py:61-62 | the loop marks exactly the listed fields required |
| CheckoutForms.OrderForm.constructor | checkout/forms.py:38-62 | a form with the eight order fields ends with classes, default placeholders and required flags set |
| CheckoutForms.BootstrapClassSpec | checkout/forms.py:44-49 | text, e-mail and number inputs get " form-control" and selects " form-select" appended to their class, stripped, so an empty class becomes the bare word; other widgets and every other attribute are untouched |
| CheckoutForms.StripAppendWord | checkout/forms.py:46-49 | stripping a stripped class plus the suffix drops only the leading space of an empty class |
| CheckoutForms.WithClassesGet | checkout/forms.py:42-49 | after the pass each field holds its own classed version and no field appears or disappears |
| CheckoutForms.WithClassesValid | checkout/forms.py:42-49 | the pass keeps the field names distinct |
| CheckoutForms.SetDefaultPlaceholderGet | checkout/forms.py:52-58 | `setdefault` changes only the named field, and only if present |
| CheckoutForms.PlacedGet | checkout/forms.py:52-58 | each of the seven fields with a default placeholder gets it via `setdefault`; the others are unchanged |
| CheckoutForms.SetDefaultPlaceholderSpec | checkout/forms.py:52-58 | a placeholder already set is kept, otherwise the default is set; the class and everything else are untouched |
| CheckoutForms.MakeRequiredGet | checkout/forms.py:62 | only the named field becomes required |
| CheckoutForms.WithRequiredGet | checkout/forms.py:61-62 | a field is required afterwards exactly when it was before or is one of the listed names |
| CheckoutForms.ClassStepSpec | checkout/forms.py:42-49 | the class pass leaves placeholders, captions, widgets and required flags alone |
| CheckoutForms.InitialisedSpec | checkout/forms.py:38-62 | after the constructor each field keeps its caption and widget, has its Bootstrap class, keeps its own placeholder or gets the default one, and is required exactly when it was or is one of full name, e-mail, street address 1, town and country |
| ProfileForms.CleanPhoneSpec | profiles/forms.py:68-78 | a phone number is accepted exactly when it is empty or, after an optional leading `+`, consists of 7 to 15 digits; it comes back unchanged, and otherwise the phone error is raised |
| ProfileForms.AcceptedPhoneChars | profiles/forms.py:74 | every character of an accepted phone number is a digit, except possibly a leading `+` |
| ProfileForms.CleanPostcodeSpec | profiles/forms.py:80-90 | a postcode is refused exactly when it is non-empty and too short, too long, or holds a character other than a letter, digit, white space or `-`; an accepted one comes back unchanged |
| ProfileForms.PostcodeExamples | profiles/forms.py:80-90 | "D02 X285" and "SW1A 1AA" pass; "D02#X285" and "AB" are refused |
| ProfileForms.PhoneAcceptedExamples | profiles/forms.py:68-78 | "+353871234567" and "0871234567" pass |
| ProfileForms.PhoneRejectedExamples | profiles/forms.py:68-78 | "12345" and "call me now" are refused |
| ProfileForms.PlaceholderForSpec | profiles/forms.py:53-58 | the placeholder is the known one for the field, or else the label or the prettified name, followed by " *" exactly when the field is required |
| ProfileForms.AutofocusIndex | profiles/forms.py:39-47 | the position chosen for autofocus, if any, is a field of the form |
| ProfileForms.UserProfileForm.constructor | profiles/forms.py:20-62 | the form's fields are the initial fields decorated as below |
| ProfileForms.DecorateAll | profiles/forms.py:50-62 | the loop decorates every field in place, keeping names and order |
| ProfileForms.AutofocusIndexSpec | profiles/forms.py:39-47 | the position chosen is that of the phone field when there is one, else that of the first field |
| ProfileForms.AutofocusSpec | profiles/forms.py:39-47 | autofocus is set on the phone field if present, else on the first field if there is one, and nothing else changes |
| ProfileForms.AutofocusAt | profiles/forms.py:39-47 | the same, for one field |
| ProfileForms.DecorateFieldSpec | profiles/forms.py:50-62 | each field gets the profile input class and its label switched off; every field but the country gets its placeholder; required flag, widget and autofocus are untouched |
| ProfileForms.DecoratedSpec | profiles/forms.py:39-62 | after the constructor every field keeps its name, position, required flag and widget, has the input class and no label, has its placeholder unless it is the country, and has autofocus exactly as chosen above |
| ProfileForms.DecoratedAt | profiles/forms.py:39-62 | the same, for one field |
| ProfileForms.DecorateFocused | profiles/forms.py:42-62 | setting autofocus first does not change the placeholder or class the decoration then gives |
| ProfileForms.PlaceholderForAgrees | profiles/forms.py:53-58 | the placeholder depends only on the field's label and required flag |
| ProfileForms.KnownPlaceholderExample | profiles/forms.py:28-58 | the postcode field reads "Postal Code", with " *" when required |
| ProfileForms.FallbackSpec | profiles/forms.py:56 | an unknown field uses its label when it has one, and otherwise its name with underscores turned into spaces and each word capitalised |
| ProductForms.CleanPrice | products/forms.py:30-34 | a price is accepted exactly when it is missing or not negative, and comes back unchanged; a negative one raises the price error |
| ProductForms.CleanPriceIdempotent | products/forms.py:30-34 | cleaning an accepted price again gives the same result |
| ProductForms.CleanPriceNeverNegative | products/forms.py:30-34 | an accepted price is never below zero |
| ProductForms.CleanPriceExamples | products/forms.py:30-34 | a missing price, 0.00 and 12.50 pass; -0.01 is refused |
| ProductForms.WithImageRule | products/forms.py:24-28 | the rule keeps the set of fields |
| ProductForms.WithImageRuleSpec | products/forms.py:24-28 | for a saved instance (primary key present and not 0) the image field is no longer required; for an unsaved one nothing changes; every other field and the image field's label, widget and attributes are untouched |
| ProductForms.ImageNeverRequired | products/forms.py:24-28 | an image field that was optional stays optional |
| ProductViews.SearchTerm | products/views.py:23 | the search term is the stripped `q` parameter, or "" |
| ProductViews.SearchFilterIff | products/views.py:23-30 | the search filter applies exactly when the `q` parameter has a non-white-space character |
| ProductViews.SearchTermStable | products/views.py:23 | feeding the returned term back as `q` gives the same term |
| ProductViews.Direction | products/views.py:33-37 | the direction is "asc" or "desc", and "desc" exactly when the parameter lower-cases to "desc" (missing means "asc") |
| ProductViews.DirectionExamples | products/views.py:33-37 | no parameter gives "asc", "DESC" gives "desc", "up" gives "asc" |
| ProductViews.OrderBySpec | products/views.py:39-51 | an ordering applies exactly for sort name, price or category; its key is `lower_name`, `price` or `category__name`, prefixed with "-" exactly when the direction is "desc" |
| ProductViews.OrderByInjective | products/views.py:39-51 | different sort and direction choices give different orderings |
| ProductViews.ApplySearchSortSpec | products/views.py:16-53 | `_apply_search_sort` returns the stripped term, filters exactly when it is non-empty, returns the raw sort and a normalised direction, and orders exactly for the three known sorts, descending exactly for "desc" |
| ProductViews.NonEmpty | products/views.py:76 | the comprehension keeps exactly the non-empty pieces |
| ProductViews.CategorySlugsSpec | products/views.py:75-76 | the selected slugs are exactly the non-empty comma-separated pieces of the stripped parameter, none holding a comma |
| ProductViews.NonEmptyOfFull | products/views.py:76 | a list without empty pieces is kept whole |
| ProductViews.CategorySlugsRoundTrip | products/views.py:75-76 | parsing slugs joined by commas gives back those slugs, in order |
| ProductViews.FindBySlug | products/views.py:59-61 | the category found has that slug; none is found exactly when no category has it |
| ProductViews.ChildIds | products/views.py:62 | the child ids are exactly the ids of the categories whose parent is the given category |
| ProductViews.IdsForCategoryAndChildrenSpec | products/views.py:56-63 | for a known slug the ids are the parent's id followed by exactly its children's ids, and the parent is returned; for an unknown slug the result is ([], None) |
| ProductViews.LandingProducts | products/views.py:102-112 | a landing page lists only catalogue products |
| ProductViews.LandingProductsSpec | products/views.py:102-112 | a product is listed exactly when its category is the root or one of its children and, when slugs are selected, its category's slug is among them |
| ProductViews.LandingProductsAppend | products/views.py:102-112 | the listing keeps the queryset's order: the kept products of a first run of products come before those of a second run |
| ProductViews.UnknownRootListsNothing | products/views.py:102-107 | an unknown root category lists no products |
| CustomCakeViews.CanAccessSpec | custom_cake/views.py:9-10 | staff reach every cake; anyone else exactly the cakes whose owner id is theirs, so a cake without an owner is staff-only |
| CustomCakeViews.OwnedBy | custom_cake/views.py:21 | the filter keeps exactly the user's own cakes |
| CustomCakeViews.OwnedByCount | custom_cake/views.py:21 | the filter keeps each of the user's cakes as often as the table holds it and no other cake |
| CustomCakeViews.ConsNewestFirst | custom_cake/views.py:19-21 | a cake with an id at least every later id can lead a newest-first list |
| CustomCakeViews.InsertByIdPerm | custom_cake/views.py:19-21 | inserting a cake adds exactly that cake |
| CustomCakeViews.InsertByIdSorted | custom_cake/views.py:19-21 | inserting into a newest-first list keeps it newest first |
| CustomCakeViews.ByIdDescendingSpec | custom_cake/views.py:19-21 | `order_by('-id')` gives a permutation of its input with ids in descending order |
| CustomCakeViews.CakeListSpec | custom_cake/views.py:12-22 | the list is newest first and holds exactly the cakes the user may access, each as often as the table holds it: all of them for staff, their own for anyone else |
| CustomCakeViews.Create | custom_cake/views.py:24-37 | only a valid POST adds a cake, under a new id, owned by the requesting user, leaving every other cake unchanged |
| CustomCakeViews.CreateOwned | custom_cake/views.py:30-32 | a created cake is owned by its creator, who can access it, as can exactly staff and that user |
| CustomCakeViews.Detail | custom_cake/views.py:39-44 | an unknown id gives not found, a cake the user cannot access gives permission denied, any other is shown |
| CustomCakeViews.GatesBeforeChanges | custom_cake/views.py:46-70 | edit and delete answer not found or permission denied exactly as detail does, and change the table only after passing the gate on a (valid) POST |
| CustomCakeViews.DeleteOnlyOnPost | custom_cake/views.py:61-70 | a permitted GET deletes nothing; a permitted POST removes exactly that cake |
| CustomCakeViews.EditKeepsAccess | custom_cake/views.py:46-59 | editing never adds or removes a cake nor changes who may access any cake |
| SiteViews.RobotsTxtLines | cake_it_easy_v2/views.py:6-22 | robots.txt is exactly six lines: the user-agent line, the four Disallow lines for /bag/, /checkout/, /accounts/ and /admin/, then the sitemap line with the url inserted verbatim |
| SiteViews.ResolvedUrls | cake_it_easy_v2/views.py:36-42 | at most one url per route name |
| SiteViews.ResolvedUrlsSpec | cake_it_easy_v2/views.py:36-42 | every url listed comes from a route name that resolves, and every name that resolves has its url listed; names that fail are skipped |
| SiteViews.ResolvedUrlsAppend | cake_it_easy_v2/views.py:36-42 | the urls follow the order of the names, one url per resolving name and none for a name that fails |
| SiteViews.Blocks | cake_it_easy_v2/views.py:48-55 | three lines per url |
| SiteViews.BlocksAt | cake_it_easy_v2/views.py:48-55 | the i-th group of three lines is the `<url>`/`<loc>`/`</url>` block of the i-th url, in order |
| SiteViews.SitemapLinesSpec | cake_it_easy_v2/views.py:44-56 | the sitemap has 3 + 3n lines: the XML declaration, the `<urlset>` opening, one block per url in order with the url verbatim, and `</urlset>` |
| SiteViews.CollectUrls | cake_it_easy_v2/views.py:36-42 | the loop collects exactly the resolved urls, in listed order |
| SiteViews.BuildBody | cake_it_easy_v2/views.py:44-56 | the loop builds exactly those lines |
| SiteViews.SitemapXml | cake_it_easy_v2/views.py:25-58 | the response body is those lines, for the six listed route names, joined with newlines |
| Settings.EnvBoolSpec | cake_it_easy_v2/settings.py:15-16 | an unset variable gives the default; a set one is true exactly when it lower-cases to "true" |
| Settings.EnvBoolExamples | cake_it_easy_v2/settings.py:15-16 | "TRUE" is true, "1" and "yes" are false, whatever the default |
| Settings.StrippedNonBlank | cake_it_easy_v2/settings.py:30-32 | the comprehension yields no more entries than pieces |
| Settings.StrippedNonBlankSpec | cake_it_easy_v2/settings.py:30-32 | every entry is a non-empty stripped piece, and every piece that is not blank appears stripped |
| Settings.CommaListSpec | cake_it_easy_v2/settings.py:30-32 | list entries are non-empty, carry no surrounding white space and hold no comma, and every non-blank comma-separated piece appears |
| Settings.StrippedNonBlankOfClean | cake_it_easy_v2/settings.py:31 | pieces that are already clean are kept as they are |
| Settings.CommaListRoundTrip | cake_it_easy_v2/settings.py:31 | clean entries joined with commas parse back to the same list, in order; in particular the defaults |
| Settings.BlankVariableEmptiesList | cake_it_easy_v2/settings.py:30-32 | a variable holding only white space and commas gives an empty list, not the defaults |
| Settings.BlankPieceOfBlankJoin | cake_it_easy_v2/settings.py:31 | every piece of a blank comma-joined text is blank |
| Settings.JoinOffset | cake_it_easy_v2/settings.py:31 | each piece occurs in the joined text at a known offset |
| Settings.DefaultsWhenUnset | cake_it_easy_v2/settings.py:29-46 | an unset ALLOWED_HOSTS or CSRF_TRUSTED_ORIGINS gives exactly the default list |
| Settings.DefaultHostsClean | cake_it_easy_v2/settings.py:29 | the default hosts are clean entries |
| Settings.DefaultCsrfClean | cake_it_easy_v2/settings.py:36-41 | the default origins are clean entries |
| Settings.SecurityForSpec | cake_it_easy_v2/settings.py:207-213 | SSL redirect, both secure cookies, HSTS subdomains and preload are all `not DEBUG`; HSTS is on exactly when DEBUG is off, for one year |
| Settings.SecureByDefault | cake_it_easy_v2/settings.py:207-213 | with DEBUG unset every security flag is on and HSTS is 31536000 seconds |
| CategorySlug.TrailingDigitCount | products/migrations/0006_category_slug.py:14-15 | the run of trailing digits is never longer than the text |
| FormFields.SetAttrSpec | profiles/forms.py:59-61 | `attrs[key] = v` makes the key hold v and leaves every other key, the label, the required flag and the widget alone |
| FormFields.SetDefaultAttrSpec | checkout/forms.py:52-58 | `attrs.setdefault(key, v)` keeps a value already there and otherwise stores v, touching no other key |
| FormFields.UpdateField | checkout/forms.py:62 | replacing one field keeps the set of field names |
| FormFields.UpdateFieldGet | checkout/forms.py:62 | only the named field is replaced |
| SessionState.Session.constructor | bag/views.py:30-32 | the session holds the given bag, discount and notice |
| PyDict.Keys | checkout/views.py:59 | the keys of a dict, in insertion order |
| PyDict.Values | bag/context_processors.py:6 | the values of a dict, in insertion order |
| PyDict.Get | bag/views.py:193 | a lookup succeeds exactly for the dict's keys |
| PyDict.IndexOfKey | bag/views.py:193 | the position found holds the key; none is found exactly when it is absent |
| PyDict.GetByIndex | products/management/commands/generate_image_map.py:129 | `d[k]` is the value at the position of k in iteration order |
| PyDict.GetAt | checkout/views.py:59 | with distinct keys, each pair is what its key looks up |
| PyDict.GetIn | checkout/views.py:59 | a successful lookup comes from a pair of the dict |
| PyDict.GetAppend | bag/views.py:100 | appending a new pair changes only the lookup of its key, and only if it was absent |
| PyDict.GetLast | bag/views.py:100 | lookups in a dict split as its first pairs and its last one |
| PyDict.LastKeyFresh | bag/views.py:100 | in a dict with distinct keys the last key occurs nowhere before it |
| PyDict.Set | bag/views.py:100 | `d[k] = v` keeps the key order, adding k at the end when it is new |
| PyDict.SetGet | bag/views.py:100 | after `d[k] = v`, k holds v and every other key what it held |
| PyDict.SetValid | bag/views.py:100 | assignment keeps keys distinct |
| PyDict.Pop | bag/views.py:194 | popping an absent key changes nothing |
| PyDict.PopSpec | bag/views.py:194 | after `d.pop(k, None)` k is absent, every other key keeps its value, and the size drops by one exactly when k was there |
| PyDict.PopKeys | bag/views.py:194 | popping adds no key |
| Text.StripIdempotent | checkout/forms.py:69 | `strip()` twice is `strip()` once |
| Text.StripEmptyIff | products/views.py:23-24 | a text strips to "" exactly when it is all white space |
| Text.IndexOf | checkout/views.py:126-130 | `find`: the first position where the pattern occurs, or none when it occurs nowhere |
| Text.Split | checkout/views.py:61 | `split(sep)` always gives at least one piece |
| Text.JoinSplit | checkout/views.py:61 | joining the pieces of a split with the separator gives the text back |
| Text.SplitPiecesFree | checkout/views.py:61 | no piece of a split contains the separator |
| Text.SplitJoin | bag/views.py:77 | splitting a join of separator-free pieces gives the pieces back |
| Text.Words | checkout/views.py:163 | `split()` gives non-empty words free of white space, and none exactly for a blank text |
| Text.WordsOfJoin | checkout/views.py:163-167 | words joined with single spaces split back into the same words |
| Text.SliceTo | products/migrations/0006_category_slug.py:15 | `s[:n]` is a prefix of s of length min(n, len(s)) for n ≥ 0 |
| Text.IntToString | bag/views.py:77 | `str(i)` is never empty |
| Text.DigitsValueOfNatToString | bag/views.py:77 | the digits of `str(n)` read back as n |
| Text.ParseIntOfIntToString | checkout/views.py:62-64 | `int(str(i)) == i` for every integer, negative ones included |
| Text.ParseIntOfNatText | checkout/views.py:62 | the same for natural numbers |
| Text.ParseIntOfNegativeText | checkout/views.py:62-64 | the same for negative numbers |
| Text.IntToStringNoUnderscore | bag/views.py:77 | `str(i)` holds no `_`, so it is one piece of a bag key |
| Text.StripSpec | bag/views.py:25-26 | `strip()` returns the text without its leading and trailing white space: a stripped slice of the input starting after the leading white space |
| Text.Lower | products/views.py:33 | `lower()` maps each character to its lower-case form and keeps the length |
| Text.Upper | checkout/forms.py:69 | `upper()` maps each character to its upper-case form and keeps the length |
| Text.UpperIdempotent | checkout/forms.py:69 | upper-casing twice is upper-casing once |
| Text.TitleAfter | profiles/forms.py:56 | `title()` keeps the length and every non-letter, and capitalises a leading letter |
| Text.ReplaceChar | products/management/commands/generate_image_map.py:47 | `replace(a, b)` for one character changes exactly the occurrences of a |
| Text.RemoveChar | products/management/commands/generate_image_map.py:47 | `replace(a, "")` leaves no a and never lengthens the text |

## Left out

- Stripe: `stripe.PaymentIntent.create` (checkout/views.py:233-249) is modelled only as the amount requested (`CheckoutViews.PaymentMatchesOrder`). Webhook signature verification is an opaque boolean. Both are network and cryptographic calls.
- The GET branch of `checkout` that pre-fills the form from the profile (checkout/views.py:191-231) and the profile defaults saved with `save_info` (checkout/views.py:154-159, 172-179) are not modelled: they copy form fields. The full-name split among them is modelled (`CheckoutViews.NamePartsSpec`).
- `my_orders` (checkout/views.py:290-309) is a query and a render; only the access rule of the order pages is modelled.
- `bag_contents`, imported by the checkout and bag views, is not part of this model: no file defines it. Its total, delivery, discount amount and code are inputs. Delivery rules and per-request discount recomputation therefore are not modelled.
- `ProductOption` is not part of this model: its `pack_price()`, `price` and owning product are inputs.
- Messages, templates, redirect targets, JSON serialisation of the bag (`original_bag`) and CSV writing are outside the model. A view's answer is an outcome tag.
- File-system work is left out: `rglob`, `resolve` and `relative_to` in generate_image_map.py (the walk and the relative paths are inputs), and `os.listdir` and `os.rename` in rename_images.py (the directory listing is an input, and renames onto an existing name are not modelled).
- Regular expressions and `str` methods are modelled over ASCII. Python's Unicode `\w`, `\d` and `\s`, and `$` matching before a final newline, are not modelled.
- Queryset operations are sequences. The `icontains` search filter is recorded as the term it filters on, not evaluated. `product_list`, `product_offers`, `product_detail` and the staff product views (products/views.py:71-92, 170-239) are queries and renders with no further logic.
- Concurrency (two requests writing one session, a webhook racing the checkout) is not modelled. There are no floats.
- Session bag values are JSON scalars (number, text, null). Lists, objects, floats and booleans stored in a bag are not modelled.
- CategorySlug.BackfillSlugs: requires every id to be a 64-bit primary key (`BigAutoField`, cake_it_easy_v2/settings.py:219) and the table to hold fewer than 2^62 rows. Under these bounds a suffix has at most 19 digits, which keeps every slug within 60 characters. The categories are given in id order.
- ImageMap.ImageFiles: states which files are kept, not their order; the order is that of the walk, which is an input.
- ImageMap.ExactHit: the iteration order of the stem set is hash-dependent in Python and is an input here, constrained to list the product's own stems once each; `ImageMap.ExactHitIffStemIndexed` and `ImageMap.ExactHitOfProductStems` state what holds for every such order.
- ApplyDescriptions.ProductTable.ApplyDescriptions: the JSON mapping is given already parsed, as a dict with distinct keys; any read or parse failure is one error value. A JSON document that is not an object is not modelled.
- CustomCakeViews.Create: the fields of the custom-cake form are one opaque record; validation is a boolean input.
- ProductForms.CleanPrice: the `max_digits` check Django applies before `clean_price` is not modelled.

## Findings

| source | as written | input that shows it | evidently intended | confidence | as-written member | corrected member |
|---|---|---|---|---|---|---|
| products/management/commands/generate_image_map.py:111 | `existing = (str(prod.image.name) or "").strip()`: a NULL image column (allowed by products/models.py:25) has `name` None, so `str` gives `"None"`, which is truthy | a product whose `image` is NULL gets the row `(sku, "None", "already-set")` and no suggestion | a NULL image counts as no image, and the product gets a suggestion | not executed | ImageMap.NullImageAsWritten | ImageMap.ExistingImageSpec |
