# Clutch catalogue: image and product reconciliation, search and file bucketing

This project models the catalogue-assembly layer of a clutch-parts catalogue
website (the TypeScript modules under `lib/`) and proves properties of it in
Dafny.

- **`lib/imageProductMapping.ts`** answers which product an image file shows. It tries three stages in order:
  - a hand-written override table, guarded by category and size, followed by a part-number lookup;
  - an exact comparison of the normalised file name with each part number;
  - a keyword score that keeps the first product with the strictly largest positive score.

  Module `ImageProductMapping` models it. Products are referred to by their position in the product list.
- **`lib/imageMapping.ts`** lists the images of a category and size.
  - It filters a fixed per-size file table by per-category keywords.
  - Each kept file becomes an `{path, alt, exactFilename}` record. The alt text is the name without its extension and size annotation.

  Module `ImageMapping` models it. Worked examples on the 430 mm row are in `ImageMappingExamples`.
- **`lib/search.ts`** provides the search.
  - It flattens the product data (category, then size, then product, or image) into search rows with positional ids and an image fallback.
  - The flattened list is cached on first use.
  - A non-blank query keeps the rows whose joined, lower-cased fields contain the lower-cased query.

  Module `Search` models it. The module-level cache is the class `Search.ProductSearch`.
- **`lib/getImageFiles.ts`** groups a directory listing into five size buckets (362 goes to 360, 352 to 350). It remembers the result after the first successful read.

  Module `ImageFiles` models it. The directory read becomes a `Listing` parameter, and the module-level cache is the class `ImageFiles.ImageFileIndex`.
- **Relating the two tables.** `TableAgreement` relates the override table and the file table, which list the same exact file names.

The JavaScript built-ins the code relies on are modelled in `Text`:
- `\s`, `toLowerCase`, `trim`;
- `replace(/\s+/g, ' ')`, `split(/\s+/)`, `join(' ')`;
- `includes`, `indexOf`, `replace` of a first occurrence;
- the leading `<digits>mm` pattern.

Sequence helpers (`find`, `filter`, `map`) are in `Seqs`. `Catalog` holds the shape of the product data.

## Model

| member | source | states |
|---|---|---|
| ImageProductMapping.NormalizeIsCanonical | lib/imageProductMapping.ts:177-183 | a normalised name has only canonical quotes, no whitespace other than single spaces, and no leading or trailing whitespace |
| ImageProductMapping.NormalizeFilename | lib/imageProductMapping.ts:177-183 | `normalizeFilename`: quote replacement, whitespace collapsing and trimming, in that order; its properties are stated by the lemmas in the rows around this one |
| ImageProductMapping.AsciiWellFormed | lib/imageProductMapping.ts:179-180 | the quote classes as written are well formed, so the lemmas that assume well-formed classes hold for the code as written |
| ImageProductMapping.NormalizeFixedPoints | lib/imageProductMapping.ts:177-183 | normalising leaves a name unchanged exactly when the name is already canonical |
| ImageProductMapping.NormalizeIdempotent | lib/imageProductMapping.ts:177-183 | normalising twice gives the same name as normalising once |
| ImageProductMapping.NormalizeKeepsLetters | lib/imageProductMapping.ts:177-183 | every letter of a normalised name occurs in the original; with well-formed quote classes the letters of the normalised name, in order, are exactly those of the original, so none is dropped, added or changed in case |
| ImageProductMapping.QuoteCharLetter | lib/imageProductMapping.ts:179-180 | with well-formed classes a quote replacement leaves every letter as it is and never produces a letter |
| ImageProductMapping.MapQuotesLetters | lib/imageProductMapping.ts:179-180 | with well-formed classes the quote replacements keep the letters of a name, in order |
| ImageProductMapping.NormalizeLower | lib/imageProductMapping.ts:190 | lower-casing before normalising gives the same name as lower-casing after it |
| ImageProductMapping.QuoteCharFixed | lib/imageProductMapping.ts:179-180 | the two quote replacements are idempotent on one character and leave the space alone |
| ImageProductMapping.AsciiQuotesKeep | lib/imageProductMapping.ts:179-180 | with the quote classes as written (ASCII quotes only) the quote replacements change nothing |
| ImageProductMapping.StripSizeLead | lib/imageProductMapping.ts:194 | removing the size lead leaves a suffix of the name, and a name without a leading `<digits>mm` is unchanged |
| ImageProductMapping.DropNonLower | lib/imageProductMapping.ts:194 | the dropped prefix holds no lowercase letter, and what is left is empty or starts with one |
| ImageProductMapping.StripSizeLeadOf | lib/imageProductMapping.ts:194 | for a name `<digits>mm<non-letters><rest>` where `rest` starts with a lowercase letter, exactly `rest` remains |
| ImageProductMapping.DropNonLowerOf | lib/imageProductMapping.ts:194 | a run without lowercase letters in front of a lowercase letter is dropped entirely |
| ImageProductMapping.StripPng | lib/imageProductMapping.ts:195 | a trailing `.png` is removed, and nothing else changes |
| ImageProductMapping.Keywords | lib/imageProductMapping.ts:190-197 | the keywords are the tokens of the lower-cased, normalised name (size lead and `.png` removed, split on whitespace) that are longer than two characters and not one of the seven stop words: every such token is kept, as often as it occurs, no other, and in token order; none contains whitespace |
| ImageProductMapping.KeywordTokens | lib/imageProductMapping.ts:190-196 | the token list the keyword filter runs over; what the filter keeps from it is stated by `Keywords` |
| ImageProductMapping.KeywordFilter | lib/imageProductMapping.ts:197 | the filter keeps exactly the qualifying tokens, each as often as it occurs in the list, in order, and only tokens of the list |
| ImageProductMapping.BestIndex | lib/imageProductMapping.ts:201-227 | the kept position has a positive score that no product exceeds and that every earlier product falls short of; nothing is kept exactly when all scores are 0 |
| ImageProductMapping.BestIndexSnoc | lib/imageProductMapping.ts:223-226 | one more product takes over only when its score is strictly larger than the best so far |
| ImageProductMapping.ScoreProduct | lib/imageProductMapping.ts:205-221 | the loop computes the product's score: the summed lengths of the keywords found in its text, doubled when a keyword is in its part number |
| ImageProductMapping.PickBestProduct | lib/imageProductMapping.ts:201-229 | the product loop returns the first position of the strictly largest positive score, or none |
| ImageProductMapping.KeywordMatch | lib/imageProductMapping.ts:186-230 | no keywords means no result; otherwise the result has a positive score that no product exceeds and it is the earliest with that score, and there is no result exactly when every score is 0 |
| ImageProductMapping.FindBestMatchByKeywords | lib/imageProductMapping.ts:186-230 | the method returns what the keyword stage specifies |
| ImageProductMapping.AnyHitExists | lib/imageProductMapping.ts:219 | the part-number bonus applies exactly when some keyword occurs in the part number |
| ImageProductMapping.HitLengthPositive | lib/imageProductMapping.ts:211-216 | with non-empty keywords, the summed hit length is positive exactly when some keyword occurs |
| ImageProductMapping.ScorePositive | lib/imageProductMapping.ts:210-221 | a product scores above 0 exactly when one of the keywords occurs in the joined product text (part number, model application and special features, separated by spaces) |
| ImageProductMapping.PartHitScores | lib/imageProductMapping.ts:218-221 | the doubling bonus only ever applies to a positive score |
| ImageProductMapping.ProductTextParts | lib/imageProductMapping.ts:205-208 | the searched product text contains the normalised part number, the model application and the special features, each lower-cased |
| ImageProductMapping.ProductText | lib/imageProductMapping.ts:205-208 | the product text the keywords are searched in; what it contains is stated by `ProductTextParts` |
| ImageProductMapping.HitLength | lib/imageProductMapping.ts:211-216 | the summed keyword lengths; when it is positive is stated by `HitLengthPositive` |
| ImageProductMapping.Score | lib/imageProductMapping.ts:210-221 | the product's score; `ScorePositive`, `PartHitScores` and `ScoreProduct` state its properties |
| ImageProductMapping.FindProductByPartNumber | lib/imageProductMapping.ts:233-241 | the result is the first product whose part number equals the query exactly or ignoring case, and there is none exactly when no product matches |
| ImageProductMapping.OverrideMatch | lib/imageProductMapping.ts:250-256 | a result comes only from an override for the file name with the same category and size, via the part-number lookup |
| ImageProductMapping.StripPngIgnoreCase | lib/imageProductMapping.ts:259 | a trailing `.png` in any letter case is removed, and nothing else changes |
| ImageProductMapping.BaseName | lib/imageProductMapping.ts:259 | the base name compared with the part numbers; its value is stated by `BaseNameOf` |
| ImageProductMapping.BaseNameOf | lib/imageProductMapping.ts:259 | a name with a `.png` extension in any letter case has its trimmed name as base name, without whitespace at either end |
| ImageProductMapping.ExactTextMatch | lib/imageProductMapping.ts:258-265 | the result is the first product with a non-empty part number equal to the base name (raw or normalised), and there is none exactly when no product qualifies |
| ImageProductMapping.GetProductForImage | lib/imageProductMapping.ts:244-272 | the result is a position in the list, an empty list gives none, and there is none exactly when all three stages fail |
| ImageProductMapping.OverridePrecedence | lib/imageProductMapping.ts:250-256 | a matching override whose part number some product carries decides the result, whatever the later stages would pick |
| ImageProductMapping.ExactStage | lib/imageProductMapping.ts:258-265 | when the override stage finds nothing, the first exact hit is the result |
| ImageProductMapping.KeywordStage | lib/imageProductMapping.ts:267-269 | with no override result and no exact hit, the keyword stage decides |
| ImageProductExamples.EicherCoverBase | lib/imageProductMapping.ts:259 | the base name of the Eicher Pro cover image is its name without `.png` |
| ImageProductExamples.EicherCoverExact | lib/imageProductMapping.ts:258-265 | for a product list whose first part number is that base name, the exact-text stage picks the first product |
| ImageProductExamples.EicherCoverOverride | lib/imageProductMapping.ts:21-25 | the override for the Eicher Pro cover image sends it to the product numbered G-E4305-DCA |
| ImageProductExamples.OverrideBeatsExactMatch | lib/imageProductMapping.ts:250-265 | the override stage wins over an exact-text stage that would pick another product |
| ImageMapping.SelectFilesSpec | lib/imageMapping.ts:97-114 | the kept files are exactly the row's files whose lower-cased name contains a lower-cased keyword (all files for no keywords); they keep row order, have no repeats when the row has none, and are never more than the row |
| ImageMapping.SelectFiles | lib/imageMapping.ts:97-112 | the files `getProductImages` keeps; stated by `SelectFilesSpec` |
| ImageMapping.MatchesCategory | lib/imageMapping.ts:105-107 | the category test; stated by `MatchesCategoryExists` |
| ImageMapping.ImagesShape | lib/imageMapping.ts:89-95 | every record's path is `/images/products/` plus its exact file name, and its alt is that name's alt text |
| ImageMapping.CreateImageInfo | lib/imageMapping.ts:89-95 | one record; its fields are stated by `ImagesShape` |
| ImageMapping.Images | lib/imageMapping.ts:97-114 | the records of the kept files; stated by `ImagesShape` |
| ImageMapping.ProductImages | lib/imageMapping.ts:54-115 | what `getProductImages` returns; `GetProductImages`, `UnknownSizeHasNoImages` and the 430 mm examples state it |
| ImageMapping.GetProductImages | lib/imageMapping.ts:54-115 | the method returns the records of the selected files of the size's row for the category's keywords |
| ImageMapping.CollectImages | lib/imageMapping.ts:55-114 | an empty row gives nothing, no keywords maps every file, and otherwise the matching files are pushed in order |
| ImageMapping.PushMatching | lib/imageMapping.ts:103-112 | the push loop yields the records of the accepted files, in order |
| ImageMapping.UnknownSizeHasNoImages | lib/imageMapping.ts:57-58 | a size without a table row yields no images |
| ImageMapping.KeywordlessCategories | lib/imageMapping.ts:82-86 | repair kits, fly wheels and unknown categories have no keywords |
| ImageMapping.MatchesCategoryExists | lib/imageMapping.ts:105-107 | the category test holds exactly when some lower-cased keyword occurs in the lower-cased name |
| ImageMapping.KeywordHit | lib/imageMapping.ts:105-107 | one keyword found in the name is enough |
| ImageMapping.NoKeywordHit | lib/imageMapping.ts:105-107 | a name lacking a character that every keyword has early enough matches no keyword |
| ImageMapping.NamedFileMatches | lib/imageMapping.ts:104-109 | a `.png` file whose name spells out a keyword is kept |
| ImageMapping.UnmarkedFileMisses | lib/imageMapping.ts:104-109 | a `.png` file whose name lacks every keyword's marking character is not kept |
| ImageMapping.AfterParens | lib/imageMapping.ts:123 | after `([^)]*)` only a strictly shorter suffix remains |
| ImageMapping.AfterSizeAnnotation | lib/imageMapping.ts:123-124 | the size annotation leaves a suffix, and there is no annotation without a leading `<digits>mm` |
| ImageMapping.StripSizeAnnotation | lib/imageMapping.ts:123-124 | both annotation removals leave a suffix of the name |
| ImageMapping.AltTextShape | lib/imageMapping.ts:118-130 | the fallback is taken exactly when only whitespace follows the size annotation; otherwise the alt text has single spaces and no whitespace at either end |
| ImageMapping.AltCore | lib/imageMapping.ts:120-127 | the alt text before the fallback; stated by `AltTextShape` |
| ImageMapping.ExtractAltText | lib/imageMapping.ts:118-130 | `extractAltText`; stated by `AltTextShape` and `AltTextOfCatalogueName` |
| ImageMapping.NoDotPngOnlyAtEnd | lib/imageMapping.ts:120 | in a name without a dot, the only `.png` is the extension |
| ImageMapping.ReplacePngAtEnd | lib/imageMapping.ts:120 | replacing the first `.png` removes the extension when no earlier `.png` occurs |
| ImageMapping.AltTextOfCatalogueName | lib/imageMapping.ts:118-130 | the alt text of `<digits>mm<ws>(<inner>)<ws><body>.png` is the body |
| ImageMapping.SizeAnnotationOf | lib/imageMapping.ts:123 | the first pattern removes the annotation and the whitespace after it, and nothing more |
| ImageMapping.AfterSizeAnnotationOf | lib/imageMapping.ts:123-124 | the annotation pattern matches exactly up to its closing parenthesis |
| ImageMapping.AfterParensOf | lib/imageMapping.ts:123 | a parenthesised group without `)` inside ends at its closing parenthesis |
| ImageMapping.TrimStartOf | lib/imageMapping.ts:123 | leading whitespace before a non-space goes entirely |
| ImageMapping.CollapseEdges | lib/imageMapping.ts:127 | collapsing whitespace keeps a non-space first and last character |
| ImageMappingExamples.CoverKeywords | lib/imageMapping.ts:62-69 | the cover-assembly keyword list |
| ImageMappingExamples.ClutchKeywords | lib/imageMapping.ts:70-81 | the clutch-disc keyword list |
| ImageMappingExamples.CoverKeywordsMarked | lib/imageMapping.ts:62-69 | every cover keyword, lower-cased, has a `v` or a `g` at least four characters before its end |
| ImageMappingExamples.ClutchKeywordsMarked | lib/imageMapping.ts:70-81 | every clutch keyword, lower-cased, has a `d`, `&`, `t` or `u` at least four characters before its end |
| ImageMappingExamples.CoverFileMatches | lib/imageMapping.ts:103-111 | any `<x>Cover Assembly.png` is a cover-assembly file |
| ImageMappingExamples.DiscFileMatches | lib/imageMapping.ts:103-111 | any `<x>Disc Assembly.png` is a clutch-disc file |
| ImageMappingExamples.CoverFileMisses | lib/imageMapping.ts:103-111 | `<x>Cover Assembly.png`, with no clutch mark in `x`, is not a clutch-disc file |
| ImageMappingExamples.DiscFileMisses | lib/imageMapping.ts:103-111 | `<x>Disc Assembly.png`, with no cover mark in `x`, is not a cover-assembly file |
| ImageMappingExamples.Row430InTable | lib/imageMapping.ts:13-21 | the 430 mm row of the file table |
| ImageMappingExamples.CoverAssemblies430 | lib/imageMapping.ts:54-115 | cover assemblies of 430 mm are the Benz, Eicher Pro, Man and Prima covers, in table order |
| ImageMappingExamples.ClutchDiscs430 | lib/imageMapping.ts:54-115 | clutch discs of 430 mm are the Prima, Benz and Eicher Pro discs, in table order |
| ImageMappingExamples.BenzCoverAltText | lib/imageMapping.ts:118-130 | the alt text of `430mm (17") Benz Cover Assembly.png` is `Benz Cover Assembly` |
| Search.CategoryNameSpec | lib/search.ts:21 | a key without `_` is kept, and otherwise exactly its first `_` becomes `-` |
| Search.CategoryName | lib/search.ts:21 | the dash form of a category key; stated by `CategoryNameSpec` |
| Search.EntryId | lib/search.ts:30 | a row id; `SizeEntriesShape` states which id each row gets |
| Search.OrElse | lib/search.ts:31 | the title is the part number when it is non-empty, else the fallback, so it is never empty |
| Search.ImageFor | lib/search.ts:34 | the image is the product's own image path when that image exists and its path is non-empty, otherwise the first image's path, and absent exactly when the size has no images |
| Search.SizeEntriesShape | lib/search.ts:24-52 | a size gives one row per product, carrying that product's fields, its position in the id and its image, titled by its part number or, when that is missing or empty, by `<category> <diameter>mm`; with no products it gives one row per image, titled by the image's alt text or that fallback; every row has its category, diameter and a non-empty title |
| Search.ProductEntry | lib/search.ts:29-38 | the row of one product; stated by `SizeEntriesShape` |
| Search.ImageEntry | lib/search.ts:44-50 | the row of one image; stated by `SizeEntriesShape` |
| Search.SizeEntries | lib/search.ts:25-52 | the rows of one size; stated by `SizeEntriesShape` |
| Search.CategoryEntriesShape | lib/search.ts:24-53 | every row of a category has the category's name, a non-empty title and one of its size keys |
| Search.CategoryEntries | lib/search.ts:24-53 | the rows of one category; stated by `CategoryEntriesShape` and `PushCategory` |
| Search.FlattenShape | lib/search.ts:16-57 | every flattened row has a non-empty title and the dash-form name of one of the data's category keys |
| Search.FlattenWith | lib/search.ts:16-57 | the flattened rows; stated by `FlattenShape` and `FlattenLoop` |
| Search.FlattenProducts | lib/search.ts:16-57 | the method returns the flattened rows of the data |
| Search.FlattenLoop | lib/search.ts:17-56 | the loop over categories appends each category's rows in key order |
| Search.PushCategory | lib/search.ts:24-53 | the loop over sizes appends each size's rows in key order |
| Search.PushSize | lib/search.ts:28-52 | one size's rows are appended after the rows so far |
| Search.PushProducts | lib/search.ts:28-39 | one row per product is appended, in product order, with the product's position |
| Search.PushImages | lib/search.ts:43-51 | one row per image is appended, in image order, with the image's position |
| Search.Present | lib/search.ts:83 | no more values remain than there are fields, none is empty, and every defined, non-empty field value remains |
| Search.PresentMembers | lib/search.ts:83 | the remaining values are exactly the defined, non-empty field values |
| Search.PresentCount | lib/search.ts:83 | every non-empty value remains as often as it occurs among the fields, and the empty string never remains |
| Search.PresentCountOf | lib/search.ts:83 | the same count for one value, by induction over the fields |
| Search.PresentInOrder | lib/search.ts:83 | the remaining values keep the order of the fields |
| Search.SearchableText | lib/search.ts:75-85 | the joined, lower-cased fields; `SearchableTextLower` and `SearchFindsField` state it |
| Search.SearchableTextLower | lib/search.ts:85 | the searchable text is entirely lower case |
| Search.SearchBlankQuery | lib/search.ts:69 | a whitespace-only query finds nothing |
| Search.SearchSpec | lib/search.ts:68-89 | any other query finds exactly the rows whose searchable text contains the lower-cased query, each matching row as often as it occurs, in list order, and never more rows than the list has |
| Search.Search | lib/search.ts:68-89 | what `searchProducts` returns for a list; stated by `SearchBlankQuery` and `SearchSpec` |
| Search.AllSpaceLower | lib/search.ts:69 | lower-casing neither creates nor removes a blank query |
| Search.SearchCaseInsensitive | lib/search.ts:72 | queries that differ only in letter case find the same rows |
| Search.SearchFindsField | lib/search.ts:74-88 | a query found in any one non-empty field, ignoring case, finds the row |
| Search.ProductSearch.constructor | lib/search.ts:59 | the cache starts empty |
| Search.ProductSearch.GetCachedProducts | lib/search.ts:61-66 | the first call flattens and stores the list; every later call returns the stored list unchanged |
| Search.ProductSearch.SearchProducts | lib/search.ts:68-89 | the result is the search over the flattened data; a blank query leaves the cache as it was, and any other query fills it |
| ImageFiles.Buckets.Push | lib/getImageFiles.ts:32-36 | pushing onto one bucket appends the file there and changes no other bucket |
| ImageFiles.GroupedSnoc | lib/getImageFiles.ts:26-38 | one more listed file goes onto its bucket if it has one, and otherwise changes nothing |
| ImageFiles.GroupFilesBySize | lib/getImageFiles.ts:18-38 | the loop builds the grouping of the listing |
| ImageFiles.ObjectKeys | lib/getImageFiles.ts:18-24 | the result object has exactly the keys 430, 395, 380, 360 and 350 |
| ImageFiles.GroupedSpec | lib/getImageFiles.ts:26-38 | a bucket holds exactly the listed files that belong to it, in listing order, and no file is in two buckets |
| ImageFiles.Grouped | lib/getImageFiles.ts:18-38 | the grouping of a listing; stated by `GroupedSpec`, `GroupedSnoc` and `GroupedTotal` |
| ImageFiles.GroupedTotal | lib/getImageFiles.ts:26-38 | the buckets together hold no more files than the listing |
| ImageFiles.BucketOfName | lib/getImageFiles.ts:28-36 | a `<digits>mm` file goes to the bucket of its number (430, 395, 380), 362 to 360 and 352 to 350, and any other number to none |
| ImageFiles.BucketFor | lib/getImageFiles.ts:28-36 | the bucket of one file; stated by `BucketOfName` and `NoLeadingDigit` |
| ImageFiles.NoLeadingDigit | lib/getImageFiles.ts:28-29 | a name that does not start with a digit is in no bucket |
| ImageFiles.ImageFileIndex.constructor | lib/getImageFiles.ts:5 | the cache starts empty |
| ImageFiles.ImageFileIndex.GetActualImageFiles | lib/getImageFiles.ts:7-46 | a filled cache is returned unchanged; a successful read is grouped, stored and returned; a failed read returns `{}` and leaves the cache empty |
| TableAgreement.OverrideCategoriesAndSizes | lib/imageProductMapping.ts:14-174 | every override names cover-assembly or clutch-disc and one of the five sizes |
| TableAgreement.KeysInRows | lib/imageProductMapping.ts:14-174 | every file with an override is listed in the file table under the override's size |
| TableAgreement.RowsAreKeys | lib/imageMapping.ts:12-51 | every file of the file table has an override for the size it is listed under, and every override's file is listed under its size |
| TableAgreement.RowsInMap | lib/imageMapping.ts:12-51 | every file of the file table has an override |
| TableAgreement.RowsDisjoint | lib/imageMapping.ts:12-51 | no file is listed under two sizes |
| TableAgreement.RowSizesOf | lib/imageMapping.ts:12-51 | with keys and rows agreeing both ways and rows disjoint, a listed file's override has the size it is listed under |

## Left out

- Reading the image folder is not modelled: `readdir`, `process.cwd()`, `join`, `async` and the `console.error` on failure are outside the model. `GetActualImageFiles` takes what the read yields as a `Listing` parameter: the names, or a failure.
- The contents of `data/products.json` are not part of this model. The data is an input: a sequence of category keys, each with a sequence of size keys, in the order `Object.keys` enumerates them. For integer-like keys such as the sizes, that order is ascending numeric order. A size whose product list is missing or `null` is given as an empty list.
- Product records are typed: `partNumber`, `oemCrossReference`, `modelApplication` and `specialFeatures` are optional strings. Values of other JSON types are not modelled.
- `toLowerCase` is ASCII lower-casing. `\s` is the fixed JavaScript whitespace set written out in `Text.IsSpace`. No other Unicode case mapping is modelled.
- The quote character classes of `normalizeFilename` are a parameter (`QuoteVariants`), because their exact code points are not fixed here. `AsciiQuotes` is the classes as written, which contain ASCII quotes only.
- Lookups in the three tables see only their own keys. A JavaScript lookup of an inherited property name such as `constructor` or `toString` is not modelled.
- Object identity is not modelled:
  - The caches hold values. "Returns the identical stored list" is stated as returning the stored value unchanged.
  - A caller mutating a returned array or object, and so changing the cache, is not modelled.
- `getProductForImage` and `findProductByPartNumber` return a product's position in the list rather than the object itself.
- `FlattenLoop` receives `getProductImages` as a function argument. `FlattenProducts` supplies the modelled `getProductImages`, so the flattening is proved for any image lookup.
- TableAgreement.OverrideCategoriesAndSizes: does not state that each override file name's leading millimetre number equals its size (or is 362 for 360, or 352 for 350). Deciding that over the 28 literal names is too costly for the verifier.
- That every override's file is among `getProductImages(category, size)` for the override's own category and size is not stated for the table as a whole. The 430 mm selections are given exactly by `CoverAssemblies430` and `ClutchDiscs430`.
- There are no worked examples of the keyword stage on catalogue names. `Keywords` states which tokens of a name become keywords, and `KeywordMatch` and the lemmas after it state which product wins. Neither is evaluated on a concrete catalogue name.
- ImageProductMapping.Keywords: a token's length is counted in Unicode scalar values, not in the UTF-16 code units JavaScript's `length` counts. A token holding a character outside the Basic Multilingual Plane (an emoji, say) is shorter here than in the code, so it can pass or fail the "longer than two" test differently.
- ImageProductMapping.Score: each hit adds the keyword's length in Unicode scalar values, not in UTF-16 code units. For a keyword with a character outside the Basic Multilingual Plane the score is lower than in the code, so the ranking can differ.
