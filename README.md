# jeo request helpers and Mongo feature paths, in Dafny

This project models two pieces of the jeo geospatial library.

**The shared helpers of the embedded HTTP server's handlers** (`Handler`):
- `match` stores a whole-URI pattern match in the request context.
- `createPath`, `findWorkspace` and `findWorkspaceOrDataset` turn the two capture groups (workspace, then dataset) into repository resources. A missing resource is a 404.
- `parseCRS` turns spatial-reference lookup failures into 400 errors.
- `renderTemplate` replaces `%key%` tokens line by line.
- The nested `RequestParser` reads string, list, integer and bounding-box parameters. It never throws. Each problem appends a message to an error list, which stays null until the first message.

**The nested-document paths of a Mongo-backed feature** (`MongoFeature`):
- `find` walks a path of keys.
- `set` walks the same path, creating absent intermediate objects, and writes the leaf.
- `put(key, val)`, `put(Geometry)`, `has`, `geometry` and `id` sit on top of them.

Modules:
- `Wrappers`: `Option` (Java's null) and `Result` (a thrown exception).
- `JavaText`: the Java library semantics the handlers rely on. This covers `String.replace`, `String.split(",")` (trailing empty pieces dropped) and `Integer.parseInt`, with `Integer.toString` as its inverse.
- `Handler`: `Request` is a class whose `context` map `Match` updates. The resolvers and `parseCRS` are functions. `RenderTemplate` is a method with the source's two loops, proved against `Unlines(SubstituteLines(...))`.
- `RequestParsing`: the `RequestParser` class with its `errors` field. Each getter is a method proved against a pure `*Outcome` function, which gives the value returned and the messages appended. Lemmas about those functions state what the getters promise.
- `MongoFeature`: documents are value trees (`map<string, Value>`). `FindIn` and `SetIn` specify `find` and `set`. The `Feature` class holds the document in `obj`. Its `Find` and `Set` methods walk the path with a cursor, like the source, and `Put` loops over the geometry paths.

Notes on behaviour:
- `set` is written without rollback. In a tree it can still only fail before it has created anything, because every key below a newly created object is absent too. So a failing `set` leaves the document unchanged (`SetFailureLeavesDocument`).
- `split(",")` drops trailing empty pieces, so a `bbox` of `1,2,3,4,` has four components and is accepted (`TrailingCommaBBoxExample`).
- `createPath` with no workspace group prints `null`, as Java string concatenation does.
- In `parseCRS`, an unknown authority code gets its own message ("Cannot locate provided authority: "). The other two failures share "Cannot locate provided srs: ". All three are 400s.

## Model

| member | source | states |
|---|---|---|
| `Handler.Match` | nano/src/main/java/org/jeo/nano/Handler.java:57-65 | true exactly when the pattern matches the whole URI, and then the groups are stored under the matcher key; otherwise the context is unchanged |
| `Handler.CreatePathRecoversGroups` | nano/src/main/java/org/jeo/nano/Handler.java:83-87 | splitting the created path at its first '/' gives back group 1 and group 2 when group 1 has no '/'; an absent group 1 prints as "null" |
| `Handler.CreatePath` | nano/src/main/java/org/jeo/nano/Handler.java:83-87 | group 1 (printed "null" when absent), then "/" and group 2 when group 2 is present; `CreatePathRecoversGroups` states what it keeps |
| `Handler.FindWorkspace` | nano/src/main/java/org/jeo/nano/Handler.java:97-103 | never returns without a workspace: the repository's workspace for the key, or a 404 "No such workspace: " + key exactly when it is absent |
| `Handler.FindWorkspaceOrDataset` | nano/src/main/java/org/jeo/nano/Handler.java:118-136 | nothing without group 1, else the workspace and, with group 2, its dataset, or a 404; the four `Resolve` lemmas state its outcomes |
| `Handler.ResolveWithoutWorkspace` | nano/src/main/java/org/jeo/nano/Handler.java:118-136 | with group 1 absent the result is null, whatever group 2 holds |
| `Handler.ResolveMissingWorkspace` | nano/src/main/java/org/jeo/nano/Handler.java:123-124 | a missing workspace gives the workspace 404 before any dataset lookup |
| `Handler.ResolveMissingDataset` | nano/src/main/java/org/jeo/nano/Handler.java:126-131 | a missing dataset gives a 404 naming the dataset and its workspace |
| `Handler.ResolveNamedResource` | nano/src/main/java/org/jeo/nano/Handler.java:118-136 | a resource is returned exactly when the named workspace (and dataset, if group 2 is present) exist; it is that workspace, with a dataset exactly when group 2 is present; every failure is a 404 |
| `Handler.ParseCRS` | nano/src/main/java/org/jeo/nano/Handler.java:71-81 | null for a null srs, else the lookup's CRS or a 400 per failure kind; `ParseCRSAbsent` and `ParseCRSFailures` state its outcomes |
| `Handler.ParseCRSParameter` | nano/src/main/java/org/jeo/nano/Handler.java:67-69 | `parseCRS` of the `srs` parameter, null when there is none |
| `Handler.ParseCRSParameterReads` | nano/src/main/java/org/jeo/nano/Handler.java:67-69 | without `srs` the result is no CRS; with it, exactly what `parseCRS` gives for its value |
| `Handler.ParseCRSAbsent` | nano/src/main/java/org/jeo/nano/Handler.java:71-73 | no srs gives no CRS, independently of the lookup |
| `Handler.ParseCRSFailures` | nano/src/main/java/org/jeo/nano/Handler.java:71-81 | success exactly when the lookup finds a CRS; unsupported parameter and illegal state give 400 "Cannot locate provided srs: " + srs, unknown authority gives 400 "Cannot locate provided authority: " + srs |
| `Handler.RenderTemplate` | nano/src/main/java/org/jeo/nano/Handler.java:141-151 | the output is each line, with every variable's token replaced in iteration order, followed by "\n", lines in input order |
| `Handler.Substitute` | nano/src/main/java/org/jeo/nano/Handler.java:146-148 | each variable's token replaced in the line, one variable after another in iteration order |
| `Handler.SubstituteExample` | nano/src/main/java/org/jeo/nano/Handler.java:146-148 | "Hi %name%!" with name = Acme becomes "Hi Acme!" |
| `Handler.RenderExample` | nano/src/main/java/org/jeo/nano/Handler.java:141-151 | that one-line template renders to "Hi Acme!" followed by "\n" |
| `Handler.RenderedLines` | nano/src/main/java/org/jeo/nano/Handler.java:145-150 | without newlines in lines and values, splitting the output at "\n" gives exactly the substituted lines, one per input line, in order |
| `Handler.RenderWithoutVariables` | nano/src/main/java/org/jeo/nano/Handler.java:145-150 | with an empty map the output is the input lines, each followed by "\n" |
| `Handler.SubstituteAbsentTokens` | nano/src/main/java/org/jeo/nano/Handler.java:146-148 | a line holding none of the tokens comes out unchanged |
| `JavaText.ReplaceWithoutOccurrence` | nano/src/main/java/org/jeo/nano/Handler.java:147 | `replace` leaves a string without the target unchanged |
| `JavaText.Replace` | nano/src/main/java/org/jeo/nano/Handler.java:147 | `String.replace`: every non-overlapping occurrence, scanned left to right, replaced; an empty target inserts the replacement around every character |
| `JavaText.ReplaceFirstOccurrence` | nano/src/main/java/org/jeo/nano/Handler.java:147 | the first occurrence of a non-empty target is replaced, the text before it is kept, and the scan resumes right after it |
| `JavaText.ReplaceExample` | nano/src/main/java/org/jeo/nano/Handler.java:147 | replacing "%name%" by "Acme" in "Hi %name%!" gives "Hi Acme!" |
| `JavaText.ReplaceCharacters` | nano/src/main/java/org/jeo/nano/Handler.java:147 | every character `replace` outputs comes from the input or the replacement |
| `JavaText.SplitAll` | nano/src/main/java/org/jeo/nano/Handler.java:200 | one piece more than separators, no piece holding the separator |
| `JavaText.JoinSplitAll` | nano/src/main/java/org/jeo/nano/Handler.java:200 | joining the pieces with the separator gives the input back |
| `JavaText.SplitAllJoin` | nano/src/main/java/org/jeo/nano/Handler.java:200 | splitting inverts joining separator-free pieces |
| `JavaText.StripTrailingEmpty` | nano/src/main/java/org/jeo/nano/Handler.java:200 | the result is the longest prefix not ending in an empty piece; only empty pieces are dropped |
| `JavaText.Split` | nano/src/main/java/org/jeo/nano/Handler.java:200 | `split(",")`: the whole string without a comma, otherwise the pieces with exactly the trailing empty ones dropped; no item holds a comma |
| `JavaText.ParseInt` | nano/src/main/java/org/jeo/nano/Handler.java:247 | a parsed value lies in the 32-bit range and comes from non-empty text |
| `JavaText.ParseIntRejects` | nano/src/main/java/org/jeo/nano/Handler.java:247 | empty text, a lone sign, or any non-digit other than a leading sign is refused |
| `JavaText.ParseIntDigits` | nano/src/main/java/org/jeo/nano/Handler.java:247 | a string of digits parses to its decimal value, leading zeros allowed, exactly when that is at most 2^31-1 |
| `JavaText.ParseIntPlus` | nano/src/main/java/org/jeo/nano/Handler.java:247 | a leading "+" changes nothing |
| `JavaText.ParseIntMinus` | nano/src/main/java/org/jeo/nano/Handler.java:247 | a leading "-" negates the digits' value, accepted down to -2^31 |
| `JavaText.ParseIntExamples` | nano/src/main/java/org/jeo/nano/Handler.java:247 | "+5" gives 5, "007" gives 7, "12a" and "-" are refused |
| `JavaText.ParseIntToString` | nano/src/main/java/org/jeo/nano/Handler.java:247 | every 32-bit integer printed in decimal parses back to itself |
| `RequestParsing.RequestParser.constructor` | nano/src/main/java/org/jeo/nano/Handler.java:175-177 | the parser reads the request's parameters and starts with a null error list |
| `RequestParsing.RequestParser.AddError` | nano/src/main/java/org/jeo/nano/Handler.java:179-184 | the list is created on first use and the message is appended at its end |
| `RequestParsing.Appended` | nano/src/main/java/org/jeo/nano/Handler.java:179-184 | the error list stays null until a message is appended, and appending only adds at the end |
| `RequestParsing.RequestParser.GetParameterOr` | nano/src/main/java/org/jeo/nano/Handler.java:186-188 | the parameter's value, or the default when absent |
| `RequestParsing.RequestParser.GetParameter` | nano/src/main/java/org/jeo/nano/Handler.java:190-196 | returns the raw value and appends what `ParameterOutcome` says |
| `RequestParsing.ParameterOutcome` | nano/src/main/java/org/jeo/nano/Handler.java:190-196 | the raw value, and one missing message only for an absent required key; `MissingRequiredParameter` states it |
| `RequestParsing.RequestParser.MissingParameter` | nano/src/main/java/org/jeo/nano/Handler.java:255-257 | appends "Missing required parameter : " + key |
| `RequestParsing.MissingRequiredParameter` | nano/src/main/java/org/jeo/nano/Handler.java:190-196 | an absent required key gives null and exactly one missing message; an optional one gives null and none |
| `RequestParsing.RequestParser.GetList` | nano/src/main/java/org/jeo/nano/Handler.java:198-201 | returns and appends what `ListOutcome` says |
| `RequestParsing.ListOutcome` | nano/src/main/java/org/jeo/nano/Handler.java:198-201 | null for an absent or empty value, otherwise `split(",")`; `ListValues` and `ListRejoins` state it |
| `RequestParsing.ListValues` | nano/src/main/java/org/jeo/nano/Handler.java:198-201 | null for an absent or empty value, otherwise `split(",")` of it with no message |
| `RequestParsing.ListRejoins` | nano/src/main/java/org/jeo/nano/Handler.java:200 | the items joined with commas, plus the dropped trailing commas, give the raw value back |
| `RequestParsing.RequestParser.GetBBox` | nano/src/main/java/org/jeo/nano/Handler.java:207-240 | returns and appends what `BBoxOutcome` says |
| `RequestParsing.BBoxOutcome` | nano/src/main/java/org/jeo/nano/Handler.java:207-240 | the envelope and the messages `getBBox` appends; the `BBox` lemmas state its outcomes |
| `RequestParsing.RequestParser.GetDefaultBBox` | nano/src/main/java/org/jeo/nano/Handler.java:203-205 | the bounding box with the axes not flipped |
| `RequestParsing.AxisIndices` | nano/src/main/java/org/jeo/nano/Handler.java:215-218 | both minimum indices leave room for their maximum two places further on |
| `RequestParsing.BBoxAbsentOrEmpty` | nano/src/main/java/org/jeo/nano/Handler.java:207-210 | a missing bbox gives null and one missing message; an empty one gives null and no message |
| `RequestParsing.BBoxWrongCount` | nano/src/main/java/org/jeo/nano/Handler.java:211-212 | a component count other than 4 gives null and exactly "BBOX invalid, must have 4 values" |
| `RequestParsing.BBoxBadNumber` | nano/src/main/java/org/jeo/nano/Handler.java:223-235 | any non-numeric component gives null and exactly one "BBOX invalid, bad number", with no min/max message |
| `RequestParsing.BBoxComponents` | nano/src/main/java/org/jeo/nano/Handler.java:215-233 | unflipped: minx=c0, miny=c1, maxx=c2, maxy=c3; flipped: minx=c1, miny=c0, maxx=c3, maxy=c2; the messages are exactly the min-x one if x is inverted, then the min-y one if y is, and the envelope is still returned |
| `RequestParsing.BBoxAccepted` | nano/src/main/java/org/jeo/nano/Handler.java:215-233 | four numbers with min <= max on both axes give an envelope and no message |
| `RequestParsing.FlippedBBoxExample` | nano/src/main/java/org/jeo/nano/Handler.java:215-226 | flipped "10,20,30,40" gives x from 20 to 40 and y from 10 to 30 |
| `RequestParsing.TrailingCommaBBoxExample` | nano/src/main/java/org/jeo/nano/Handler.java:208-211 | "1,2,3,4," counts as four components and is accepted |
| `RequestParsing.RequestParser.GetInteger` | nano/src/main/java/org/jeo/nano/Handler.java:242-253 | returns and appends what `IntegerOutcome` says |
| `RequestParsing.IntegerOutcome` | nano/src/main/java/org/jeo/nano/Handler.java:242-253 | the 32-bit value, or null with one message; `IntegerMissing` and `IntegerPresent` state it |
| `RequestParsing.IntegerMissing` | nano/src/main/java/org/jeo/nano/Handler.java:242-245 | an absent required integer gives null and the missing message |
| `RequestParsing.IntegerPresent` | nano/src/main/java/org/jeo/nano/Handler.java:245-252 | malformed or out-of-range text gives null and exactly "Invalid " + key + " value : " + text; otherwise the 32-bit value and no message |
| `RequestParsing.IntegerRoundTrip` | nano/src/main/java/org/jeo/nano/Handler.java:247 | every 32-bit value, printed, is read back with no message |
| `RequestParsing.WidthExamples` | nano/src/main/java/org/jeo/nano/Handler.java:242-253 | width "abc" gives "Invalid width value : abc" and null; "256" gives 256 and no message |
| `MongoFeature.Feature.constructor` | contrib/mongo/src/main/java/io/jeo/mongo/MongoFeature.java:40-44 | the id is fixed at construction from the document |
| `MongoFeature.IdOf` | contrib/mongo/src/main/java/io/jeo/mongo/MongoFeature.java:170-174 | the `_id` object id's text when present, the generated id when absent, and a failure exactly when `_id` is not an object id |
| `MongoFeature.Feature.Find` | contrib/mongo/src/main/java/io/jeo/mongo/MongoFeature.java:127-147 | the cursor walk gives `FindIn`: the value at the last key, null at the first absent key, an error at a leaf before the last key, and the whole document for the empty path |
| `MongoFeature.FindIn` | contrib/mongo/src/main/java/io/jeo/mongo/MongoFeature.java:127-147 | the value at the last key, null at an absent key, an error at a leaf before the last key; `FindExtended` and `FindAfterSet` state it |
| `MongoFeature.FindExtended` | contrib/mongo/src/main/java/io/jeo/mongo/MongoFeature.java:127-147 | `find` on a path one key longer is the key's value inside the object found, null, or the error on a leaf |
| `MongoFeature.Feature.Set` | contrib/mongo/src/main/java/io/jeo/mongo/MongoFeature.java:149-168 | the cursor walk with creation of absent objects gives `SetIn`: new document and error |
| `MongoFeature.SetIn` | contrib/mongo/src/main/java/io/jeo/mongo/MongoFeature.java:149-168 | the document after `set` and its error; the `Set` lemmas state its outcomes |
| `MongoFeature.FindAfterSet` | contrib/mongo/src/main/java/io/jeo/mongo/MongoFeature.java:127-168 | after a successful `set(path, v)`, `find(path)` gives `v` |
| `MongoFeature.SetFrame` | contrib/mongo/src/main/java/io/jeo/mongo/MongoFeature.java:149-168 | after a successful `set`, every path diverging from the written one finds what it found before: no other key of the final object and no key off the path changes |
| `MongoFeature.SetIntoEmpty` | contrib/mongo/src/main/java/io/jeo/mongo/MongoFeature.java:152-158 | below a newly created object `set` never fails |
| `MongoFeature.SetFailureLeavesDocument` | contrib/mongo/src/main/java/io/jeo/mongo/MongoFeature.java:152-162 | a failing `set` leaves the document unchanged |
| `MongoFeature.SetSucceeds` | contrib/mongo/src/main/java/io/jeo/mongo/MongoFeature.java:149-168 | `set` succeeds exactly when the path is not empty and `find` on the parent path is null or an object |
| `MongoFeature.FirstNamed` | contrib/mongo/src/main/java/io/jeo/mongo/MongoFeature.java:100-101 | the index of the first geometry path whose joined name is the key, or the count when none is |
| `MongoFeature.Feature.Put` | contrib/mongo/src/main/java/io/jeo/mongo/MongoFeature.java:94-113 | the loop over geometry paths gives `PutIn`: new document and error |
| `MongoFeature.PutIn` | contrib/mongo/src/main/java/io/jeo/mongo/MongoFeature.java:94-113 | the document after `put(key, val)` and its error; `PutRefusesNonGeometry`, `PutGeometryValue` and `PutProperty` state it |
| `MongoFeature.PutRefusesNonGeometry` | contrib/mongo/src/main/java/io/jeo/mongo/MongoFeature.java:100-108 | a non-geometry value under a geometry key fails with "not a geometry" and writes nothing |
| `MongoFeature.PutGeometryValue` | contrib/mongo/src/main/java/io/jeo/mongo/MongoFeature.java:95-105 | a geometry under a geometry key is set, encoded, at the first path of that name, and then `find` there gives it back |
| `MongoFeature.PutProperty` | contrib/mongo/src/main/java/io/jeo/mongo/MongoFeature.java:112 | any other key is set at property path + key, and after success `find` there gives the value and `has(key)` is true |
| `MongoFeature.Feature.PutGeometry` | contrib/mongo/src/main/java/io/jeo/mongo/MongoFeature.java:85-91 | gives `PutGeometryIn`: a put under the first geometry path's name, or "No geometry for feature" |
| `MongoFeature.PutGeometryIn` | contrib/mongo/src/main/java/io/jeo/mongo/MongoFeature.java:85-91 | `put` under the first geometry path's name, or the no-geometry error; `NoGeometryPaths` and `GeometryAfterPut` state it |
| `MongoFeature.NoGeometryPaths` | contrib/mongo/src/main/java/io/jeo/mongo/MongoFeature.java:77-91 | with no geometry paths `put(Geometry)` fails with no change and `geometry()` is null |
| `MongoFeature.GeometryAfterPut` | contrib/mongo/src/main/java/io/jeo/mongo/MongoFeature.java:77-91 | after a successful `put(Geometry)`, `geometry()` finds the encoded geometry |
| `MongoFeature.HasKeys` | contrib/mongo/src/main/java/io/jeo/mongo/MongoFeature.java:55-65 | true for a key naming a geometry path; otherwise true exactly when the property-path object holds the key |
| `MongoFeature.Has` | contrib/mongo/src/main/java/io/jeo/mongo/MongoFeature.java:56-65 | `has(key)`; `HasKeys` states it |
| `MongoFeature.Geometry` | contrib/mongo/src/main/java/io/jeo/mongo/MongoFeature.java:77-82 | `find` at the first geometry path, or null without one; `NoGeometryPaths` and `GeometryAfterPut` state it |

## Left out

- HTTP transport, the `HttpException` hand-off to the server, concurrency and handler dispatch: the `init`, `canHandle` and `handle` stubs hold no logic. `HTTP_BADREQUEST` and `HTTP_NOTFOUND` become the two `Status` values.
- `createStyle`: a call into the styling builder with constant arguments.
- `java.util.regex`: a `Pattern` is an abstract whole-string predicate plus a function giving the two capture groups. The `Matcher` object is reduced to those groups.
- `Proj.crs`: an abstract lookup that finds a CRS or fails in one of three ways.
- `Double.parseDouble`: an abstract partial function to `real`. NaN and infinities are not modelled, and neither is JTS `Envelope`'s own min/max normalisation. The envelope is the four parsed values in constructor order.
- The repository's `IOException`: lookups are maps and cannot fail.
- `renderTemplate`'s resource stream, `readLine` and the closing in `finally`: the model takes the lines read. The map's entries are a sequence in iteration order.
- `JavaText.ParseInt`: accepts ASCII digits only. `Integer.parseInt` also accepts other Unicode decimal digits.
- `MongoFeature.Feature.constructor`: requires a document whose `_id` is absent or an object id. For any other `_id` the source throws a `ClassCastException`; `IdOf` reports that case as `None`.
- Nested `DBObject`s are values, not shared objects. Aliasing between nested objects, `BasicDBList` intermediates and explicit null values are not modelled. `set` writes through frames of the walk, and the whole document is rebuilt from them.
- The `Mapping` and `Path` classes are not part of this model. A path is a key sequence, `append` is concatenation, `join` is an abstract function, and `getGeometryPath(key)` is the first geometry path whose joined name is the key.
- GeoJSON conversion: `encode` is a parameter of the feature. `geometry()` returns the object found before conversion, and error messages stay error kinds because they quote `val.toString()`.
- `ObjectId` generation: the generated id is a parameter.
- `get(key)` and `map()`: they depend on GeoJSON decoding and `DBObject.toMap`.
- The OGR, PostGIS and SpatiaLite files: native driver calls, configuration constants and test I/O.
