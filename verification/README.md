# Calibration certificates: a Dafny model

This project models the core of a web application that a calibration
laboratory uses to issue certificates for micropipettes and repeater
pipettes. The model covers the following parts of the application.

- **Certificate form.** The Z correction factor table and the temperature
  buttons. The certificate number checks. The parsing of pasted readings.
  The editing of points, channels and syringes. The results of each
  calibration point: mean volume, inaccuracy, standard deviation and
  coefficient of variation.
- **Automatic filling.** Near values for the other channels, and the
  generated readings of the single-channel shortcut.
- **Assistant notes.** The check of the notes the assistant reads a
  calibration from.
- **Certificate document.** The number and address formatters, the data
  block, and the measurement tables: side-by-side rows, per-channel blocks
  and per-syringe sections.
- **Server.**
  - The notification store with its expiry notices, and the scan of the
    configured standards text for `(Validade MM/YYYY)` dates.
  - The configuration document.
  - The user accounts: login, registration, profile and administrative
    edits, password reset, heartbeat and the active-user list.
- **Pages.** The settings page and its validation. The dashboard's
  notification list and active users. The client search.

JavaScript's own behaviour is written out where the application relies on
it:
- `parseFloat` reading a decimal number (sign, digits, fraction and exponent part) at the start of a text;
- `toFixed` rounding half away from zero, for numbers below 10^21 in magnitude;
- `String.prototype.split`, `trim` and `includes`;
- `toLowerCase` and `toUpperCase` for ASCII and Latin-1 letters;
- stable `Array.prototype.sort`;
- truthiness.

Numbers are exact reals. A JavaScript number is a `Value`: `Null`, `NaN`,
an infinity or `Num(x)`.

Each module follows one part of the program:

| file | module | program part |
|---|---|---|
| `factorz.dfy` | `CorrectionFactor` | Z factor table, lookup, ± temperature buttons |
| `certnumber.dfy` | `CertificateNumber` | certificate number validation and keystroke filter |
| `readings.dfy` | `Readings` | the two parsers of pasted readings |
| `draft.dfy` | `Draft` | points, channels and syringes of the form |
| `statistics.dfy` | `Statistics` | the three ways results are computed |
| `autofill.dfy` | `AutoFill` | near values, generated values, propagation |
| `annotations.dfy` | `Annotations` | the unit check of the assistant's notes |
| `pdfformat.dfy` | `PdfFormat` | number, factor and address formatting; the data block |
| `layout.dfy`, `blocks.dfy` | `CertificateLayout`, `CertificateBlocks` | the measurement tables of the document |
| `notifications.dfy` | `Notifications` | the notification model and its controller |
| `expiry.dfy`, `checks.dfy` | `Expiry`, `ExpiryChecks` | the expiry scan and the two controllers that run it |
| `configuration.dfy` | `Configuration` | the configuration document |
| `accounts.dfy` | `Accounts` | the user controller |
| `profileform.dfy` | `ProfileForm` | the settings page |
| `dashboard.dfy` | `Dashboard` | the dashboard page |
| `clientsearch.dfy` | `ClientSearch` | the client selection page |
| `jsnumber.dfy`, `jstext.dfy`, `sorting.dfy`, `wrappers.dfy`, `http.dfy` | | JavaScript built-ins, `Option`/`Result`, HTTP replies |

## Model

| member | source | states |
|---|---|---|
| CorrectionFactor.ZTable | frontend/src/pages/EmitirCertificadoPage.jsx:157-189 | every half degree from 15.0 to 30.0 is a key, written with one decimal, and maps to its factor |
| CorrectionFactor.ParseStepKey | frontend/src/pages/EmitirCertificadoPage.jsx:157-189 | each table key read back with `parseFloat` is its own temperature |
| CorrectionFactor.StepKeyInjective | frontend/src/pages/EmitirCertificadoPage.jsx:157-189 | different half degrees have different keys, so no entry shadows another |
| CorrectionFactor.StepKeyExamples | frontend/src/pages/EmitirCertificadoPage.jsx:157-189 | the first, default and last keys are `15.0`, `20.0` and `30.0` |
| CorrectionFactor.ZValuesMonotone | frontend/src/pages/EmitirCertificadoPage.jsx:157-189 | the factor never decreases as the temperature rises |
| CorrectionFactor.TableKeys | frontend/src/pages/EmitirCertificadoPage.jsx:157-189 | the table holds exactly the half-degree keys |
| CorrectionFactor.FactorOfStepKey | frontend/src/pages/EmitirCertificadoPage.jsx:206-209 | the key of a half degree finds that degree's factor |
| CorrectionFactor.FactorOfOtherKey | frontend/src/pages/EmitirCertificadoPage.jsx:206-209 | any other key falls back to 1.0029, the 20 °C factor |
| CorrectionFactor.FactorForRange | frontend/src/pages/EmitirCertificadoPage.jsx:206-209 | whatever the temperature text, the factor lies in [1.0020, 1.0054] |
| CorrectionFactor.LookupKeyStep | frontend/src/pages/EmitirCertificadoPage.jsx:206-209 | a temperature hits a table key exactly when it reads as a number that rounds to that half degree |
| CorrectionFactor.FactorForStep | frontend/src/pages/EmitirCertificadoPage.jsx:206-209 | a temperature that rounds to a table temperature gets that temperature's factor |
| CorrectionFactor.FactorForDefault | frontend/src/pages/EmitirCertificadoPage.jsx:206-209 | every other temperature, text that is not a number included, gets 1.0029 |
| CorrectionFactor.StepTemperatureInRange | frontend/src/pages/EmitirCertificadoPage.jsx:458-469 | a button changes the temperature only into [15.0, 30.0], to the rounded sum |
| CorrectionFactor.StepTenthsText | frontend/src/pages/EmitirCertificadoPage.jsx:458-469 | stepping the text of n tenths by k tenths writes the text of n + k tenths |
| CorrectionFactor.StepUp | frontend/src/pages/EmitirCertificadoPage.jsx:458-469 | + moves from one half degree to the next, and does nothing at 30.0 |
| CorrectionFactor.StepDown | frontend/src/pages/EmitirCertificadoPage.jsx:458-469 | − moves from one half degree to the previous one, and does nothing at 15.0 |
| CorrectionFactor.StepFromStepKey | frontend/src/pages/EmitirCertificadoPage.jsx:458-469 | stepping a table temperature either way gives a table temperature |
| CorrectionFactor.StepKeepsTableTemperature | frontend/src/pages/EmitirCertificadoPage.jsx:458-469 | from a table temperature, any sequence of presses stays on table temperatures, so the lookup never falls back |
| CertificateNumber.MatchesFinalSpec | frontend/src/pages/EmitirCertificadoPage.jsx:232-233 | the final form is digits, one point, and digits, as the regular expression reads it |
| CertificateNumber.ValidateRequired | frontend/src/pages/EmitirCertificadoPage.jsx:223-228 | "required" is reported exactly for blank text, in either mode |
| CertificateNumber.EntryImpliesFinal | frontend/src/pages/EmitirCertificadoPage.jsx:221-247 | a number accepted while typing is also accepted by the final check |
| CertificateNumber.CompletedNumberIsFinalOnly | frontend/src/pages/EmitirCertificadoPage.jsx:232-241 | a completed number such as `1234.1` passes the final check but not the typing check |
| CertificateNumber.FilterInputSpec | frontend/src/pages/EmitirCertificadoPage.jsx:427-434 | the keystroke filter keeps the text up to and including its first point |
| CertificateNumber.FilterInputOnePoint | frontend/src/pages/EmitirCertificadoPage.jsx:427-434 | after filtering, a point can only be the last character |
| CertificateNumber.FilterInputIdempotent | frontend/src/pages/EmitirCertificadoPage.jsx:427-434 | filtering twice is filtering once |
| CertificateNumber.FilterInputValid | frontend/src/pages/EmitirCertificadoPage.jsx:427-437 | filtered digits with a point pass the typing check |
| Readings.Slots | frontend/src/pages/EmitirCertificadoPage.jsx:646-651 | ten slots, the first tokens from the left and empty text after them |
| Readings.SlotsPacked | frontend/src/pages/EmitirCertificadoPage.jsx:1834-1839 | with no empty token, the filled slots are exactly the first ten tokens in order |
| Readings.MainTokensSpec | frontend/src/pages/EmitirCertificadoPage.jsx:1770-1773 | the main parser keeps every non-empty trimmed comma piece, numeric or not, and only those |
| Readings.SyringeTokensSpec | frontend/src/pages/EmitirCertificadoPage.jsx:640-644 | the syringe parser keeps exactly the pieces that read as numbers |
| Readings.TokensInOrder | frontend/src/pages/EmitirCertificadoPage.jsx:640-644 | the tokens of either parser keep the order of the pasted text |
| Readings.ReadingsFromTokens | frontend/src/pages/EmitirCertificadoPage.jsx:646-651 | every stored reading is a token or empty text |
| Readings.ParsersDiffer | frontend/src/pages/EmitirCertificadoPage.jsx:640-644 | text that is not a number survives the main parser and not the syringe parser |
| Draft.EmptyPoint | frontend/src/pages/EmitirCertificadoPage.jsx:1660-1676 | a fresh point has ten empty readings and no results |
| Draft.AddPoint | frontend/src/pages/EmitirCertificadoPage.jsx:1660-1676 | adding a point appends one fresh point and keeps the others |
| Draft.RemoveKeepsLastPoint | frontend/src/pages/EmitirCertificadoPage.jsx:1271-1277 | on a single-channel form the last point is never removed |
| Draft.RemovePointExactly | frontend/src/pages/EmitirCertificadoPage.jsx:1271-1277 | otherwise exactly the points with that id go, and the others keep their order |
| Draft.RemovePointCount | frontend/src/pages/EmitirCertificadoPage.jsx:1271-1277 | with distinct ids, one point fewer remains |
| Draft.RemoveChannelExactly | frontend/src/pages/EmitirCertificadoPage.jsx:1258-1270 | on a multichannel form the point's whole channel goes while another channel is left; otherwise nothing changes |
| Draft.RemoveChannelDirect | frontend/src/pages/EmitirCertificadoPage.jsx:1679-1697 | removing a channel directly drops exactly that channel, one channel fewer |
| Draft.RemoveChannelDirectRefused | frontend/src/pages/EmitirCertificadoPage.jsx:1679-1697 | a channel without points, or the only channel, is not removed |
| Draft.UpdatePoint | frontend/src/pages/EmitirCertificadoPage.jsx:1282-1291 | an update reaches the points with that id and no other |
| Draft.SetReadingOnly | frontend/src/pages/EmitirCertificadoPage.jsx:1294-1307 | setting one reading leaves the other nine and every other field unchanged |
| Draft.RebuildMultichannel | frontend/src/pages/EmitirCertificadoPage.jsx:471-498 | switching to multichannel gives channels × positions fresh points in channel-major order |
| Draft.GridIndex | frontend/src/pages/EmitirCertificadoPage.jsx:471-498 | every channel and position has its place in that order |
| Draft.GridIndexInjective | frontend/src/pages/EmitirCertificadoPage.jsx:471-498 | no channel and position is created twice |
| Draft.ChannelIdsDistinct | frontend/src/pages/EmitirCertificadoPage.jsx:480 | ids `now + channel·100 + position` are distinct while a channel has at most 100 positions |
| Draft.ChannelIdsCollide | frontend/src/pages/EmitirCertificadoPage.jsx:480 | with 101 positions, two points share an id |
| Draft.RebuildMonochannel | frontend/src/pages/EmitirCertificadoPage.jsx:524-541 | switching back leaves a single fresh point |
| Draft.AddSyringe | frontend/src/pages/EmitirCertificadoPage.jsx:558-578 | a new syringe has three fresh points in slots 1 to 3 |
| Draft.RemoveSyringeExactly | frontend/src/pages/EmitirCertificadoPage.jsx:580-586 | the last syringe stays; otherwise exactly the syringes with that id go |
| Draft.UpdateSyringe | frontend/src/pages/EmitirCertificadoPage.jsx:587-637 | a syringe update changes that syringe and no other |
| Draft.SetSyringeReadingsOnly | frontend/src/pages/EmitirCertificadoPage.jsx:639-673 | pasting into a syringe point changes only that point's text and readings |
| Statistics.Scale | frontend/src/pages/EmitirCertificadoPage.jsx:1495-1497 | the volumes are the masses times Z, one for one |
| Statistics.MeanScale | frontend/src/pages/EmitirCertificadoPage.jsx:1495-1502 | the mean volume is Z times the mean mass |
| Statistics.SumSquaresNonNegative | frontend/src/pages/EmitirCertificadoPage.jsx:1561-1586 | a sum of squared deviations is never negative |
| Statistics.NumbersEmpty | frontend/src/pages/EmitirCertificadoPage.jsx:1468-1473 | no number is read exactly when no reading parses |
| Statistics.EmptyIsNotNumber | frontend/src/pages/EmitirCertificadoPage.jsx:1468-1471 | filtering out empty text before parsing changes nothing |
| Statistics.MainNoReadings | frontend/src/pages/EmitirCertificadoPage.jsx:1473-1483 | a point without a parseable reading has every result cleared and nothing else changed |
| Statistics.MainBadNominal | frontend/src/pages/EmitirCertificadoPage.jsx:1486-1487 | with readings but a nominal volume that is not a number, the point is left as it was |
| Statistics.MainComputes | frontend/src/pages/EmitirCertificadoPage.jsx:1489-1529 | otherwise the point gets the figures of its parsed readings and keeps everything else |
| Statistics.FiguresSpec | frontend/src/pages/EmitirCertificadoPage.jsx:1489-1528 | mean volume is Z times mean mass; inaccuracy is mean volume minus nominal, its percentage taken of the nominal; each rounded to two decimals; a zero mean gives a coefficient of 0 |
| Statistics.DeviationSingle | frontend/src/pages/EmitirCertificadoPage.jsx:1509-1516 | one volume divides a zero sum by zero, giving NaN |
| Statistics.DeviationMany | frontend/src/pages/EmitirCertificadoPage.jsx:1509-1516 | two or more volumes give the non-negative root of the sample variance |
| Statistics.MainSingleReading | frontend/src/pages/EmitirCertificadoPage.jsx:1514-1516 | a single reading stores a NaN deviation on this path |
| Statistics.MainDeviation | frontend/src/pages/EmitirCertificadoPage.jsx:1509-1527 | two or more readings store the rounded sample deviation |
| Statistics.ReferenceHundred | frontend/src/pages/EmitirCertificadoPage.jsx:1318-1364 | the 100 µL spreadsheet example gives 99.88, 99.45, −0.12, −0.12 %, 0.07 and 0.07 % |
| Statistics.ReferenceFiveHundred | frontend/src/pages/EmitirCertificadoPage.jsx:1366-1412 | the 500 µL example gives 497.78, 495.65, −2.22, −0.44 %, 0.07 and 0.01 % |
| Statistics.ReferenceThousand | frontend/src/pages/EmitirCertificadoPage.jsx:1414-1460 | the 1000 µL example gives 999.68, 995.40, −0.32, −0.03 %, 0.14 and 0.01 % |
| Statistics.SyringeFiguresSpec | frontend/src/pages/EmitirCertificadoPage.jsx:1613-1643 | on the syringe path the mean volume is Z times the mean mass and the inaccuracy is taken against the nominal; a single reading has deviation 0 and a non-positive mean a coefficient of 0 |
| Statistics.SyringeResultsSpec | frontend/src/pages/EmitirCertificadoPage.jsx:1596-1620 | a syringe point without readings is cleared; an unreadable nominal volume counts as 0 |
| Statistics.ReadNominal | frontend/src/pages/EmitirCertificadoPage.jsx:1948-1952 | an edited nominal volume is blank, a number, or neither |
| Statistics.VolumeFiguresSpec | frontend/src/pages/EmitirCertificadoPage.jsx:1944-1971 | on the nominal-volume path a single reading leaves deviation and coefficient `null`, and a blank nominal leaves the inaccuracy `null` |
| Statistics.SingleReadingPaths | frontend/src/pages/EmitirCertificadoPage.jsx:1958-1971 | the three paths store NaN, 0 and `null` as the deviation of one reading |
| Statistics.VolumeChangeSyncsChannels | frontend/src/pages/EmitirCertificadoPage.jsx:1997-2070 | editing a channel 1 volume gives the same position on other channels the new volume, keeping their readings, and touches nothing else |
| Statistics.VolumeChangeLocal | frontend/src/pages/EmitirCertificadoPage.jsx:1914-1994 | otherwise only the edited point changes |
| AutoFill.NearValueText | frontend/src/pages/EmitirCertificadoPage.jsx:1707-1708 | text that is not a number comes back unchanged |
| AutoFill.NearNumberClose | frontend/src/pages/EmitirCertificadoPage.jsx:1711-1721 | the new number is not negative and within the spread of a non-negative base |
| AutoFill.NearValueClose | frontend/src/pages/EmitirCertificadoPage.jsx:1706-1721 | a near value reads back as a non-negative number within the spread, give or take the kept decimals |
| AutoFill.CandidateIsRoundTrip | frontend/src/pages/EmitirCertificadoPage.jsx:1744 | `parseFloat(x.toFixed(2))` is rounding to two decimals |
| AutoFill.CandidateClose | frontend/src/pages/EmitirCertificadoPage.jsx:1743-1744 | a candidate is within the limit of its base plus half a cent |
| AutoFill.Attempts | frontend/src/pages/EmitirCertificadoPage.jsx:1741-1752 | the do-while ends with a fresh, positive candidate unless the 51st draw was spent |
| AutoFill.CeilDiv | frontend/src/pages/EmitirCertificadoPage.jsx:1735 | the quotient rounded up: q·b ≥ a > (q − 1)·b |
| AutoFill.Draw | frontend/src/pages/EmitirCertificadoPage.jsx:1738-1757 | one pass adds one fresh value close to the original, unless the draws ran out |
| AutoFill.ForOriginal | frontend/src/pages/EmitirCertificadoPage.jsx:1737-1761 | the inner loop adds a value per pass until `num` values exist |
| AutoFill.Generate | frontend/src/pages/EmitirCertificadoPage.jsx:1733-1765 | the outer loop makes at least `num` values when there is an original and no draw ran out |
| AutoFill.SimilarValues | frontend/src/pages/EmitirCertificadoPage.jsx:1725-1768 | at most `num` positive two-decimal values, each close to an original; without a capped draw, exactly `num`, all distinct and none equal to an original |
| AutoFill.MonoFillSpec | frontend/src/pages/EmitirCertificadoPage.jsx:1786-1832 | the shortcut keeps the five typed readings, stores the generated values after them as text that reads back as those values, and shows them joined by `, ` |
| AutoFill.NearFillSpec | frontend/src/pages/EmitirCertificadoPage.jsx:1875-1892 | a follower's reading k is the near value of token k; its later slots are empty; only readings and text change |
| AutoFill.PropagateChannel1 | frontend/src/pages/EmitirCertificadoPage.jsx:1866-1896 | only points off channel 1 at the edited position change |
| AutoFill.ChangeValues | frontend/src/pages/EmitirCertificadoPage.jsx:1768-1904 | the edited point gets its readings and text; other points change only by propagation |
| AutoFill.ChannelPropagationSpec | frontend/src/pages/EmitirCertificadoPage.jsx:1842-1896 | after a channel 1 edit the edited point keeps the typed text, followers hold near values, others are unchanged |
| AutoFill.MasterOf | frontend/src/pages/EmitirCertificadoPage.jsx:830-832 | the first channel 1 point at that position, if any |
| AutoFill.AssistantPropagateSpec | frontend/src/pages/EmitirCertificadoPage.jsx:824-860 | channel 1 is untouched; a follower whose channel 1 point has numeric readings takes its volume and near values of them; other points are untouched |
| AutoFill.AssistantSkipsPlain | frontend/src/pages/EmitirCertificadoPage.jsx:826-832 | a point without a position is never touched |
| Annotations.TestDecides | frontend/src/pages/EmitirCertificadoPage.jsx:310-311 | the scan decides `/LABEL:\s*.*?(ul\|ml)/i` as the regular expression reads it |
| Annotations.ValidateSpec | frontend/src/pages/EmitirCertificadoPage.jsx:250-338 | no errors when a unit was extracted or the text is blank; otherwise each heading not followed by a unit gives its error, in order |
| Annotations.VolumeExample | frontend/src/pages/EmitirCertificadoPage.jsx:315 | the example `VOLUME: 100ul` that the message suggests passes the volume check |
| Annotations.ValidExample | frontend/src/pages/EmitirCertificadoPage.jsx:310-336 | that example alone still lacks the two other units |
| PdfFormat.ReplaceFirst | frontend/src/services/pdfService.js:1070 | only the first occurrence is replaced, and the length is kept |
| PdfFormat.FormatFixedShape | frontend/src/services/pdfService.js:1070 | `toFixed` writes digits, at most one point and a leading minus, and never a comma |
| PdfFormat.DecimalCommaInverse | frontend/src/services/pdfService.js:1070 | turning the comma back into a point gives the `toFixed` text |
| PdfFormat.FormatDecimalNumber | frontend/src/services/pdfService.js:1046-1098 | a number is shown rounded to 2 or 4 decimals with a comma, and reads back as the rounded number |
| PdfFormat.FormatDecimalText | frontend/src/services/pdfService.js:1062-1070 | a numeric string without a comma is shown like the number it starts with |
| PdfFormat.FormatFallbacks | frontend/src/services/pdfService.js:1046-1098 | `0,00` and `1,0000` exactly for null, undefined, empty text, NaN and unreadable text |
| PdfFormat.NumberExample | frontend/src/services/pdfService.js:1046-1071 | 99.876 is shown as `99,88` |
| PdfFormat.CepDigits | frontend/src/services/pdfService.js:1031 | what remains of the post code is digits only |
| PdfFormat.Kept | frontend/src/services/pdfService.js:1000-1038 | no written piece is empty |
| PdfFormat.FormatAddressSpec | frontend/src/services/pdfService.js:989-1044 | the pieces with text joined in order, the number behind `, ` and the rest behind ` - `; `N/A` without a client; a fixed text when nothing is present |
| PdfFormat.CepTextSpec | frontend/src/services/pdfService.js:1028-1037 | the post code appears exactly when eight digits remain, as `CEP ddddd-ddd` |
| PdfFormat.FullAddress | frontend/src/services/pdfService.js:985-988 | with every field present the address reads `street, number - district - city - STATE - CEP ddddd-ddd` |
| PdfFormat.UpperOrNA | frontend/src/services/pdfService.js:471 | the shown value is never empty |
| PdfFormat.DataLinesSpec | frontend/src/services/pdfService.js:465-503 | a repeater's data block has no range lines and every other has both; the instrument line names the kind |
| CertificateLayout.SideBySideSpec | frontend/src/services/pdfService.js:779-922 | nothing for no points; otherwise rows of three sorted points, the last row holding the rest, numbered from 1, each shaped for its count |
| CertificateLayout.SideBySideSlots | frontend/src/services/pdfService.js:779-922 | read back line by line, the tables hold the points sorted by volume, numbered from 1 |
| CertificateLayout.SideTablesShape | frontend/src/services/pdfService.js:791-920 | every row but the last holds three points |
| CertificateBlocks.FixedTablesSlots | frontend/src/services/pdfService.js:570-712 | a channel's rows hold its points in order, then empty slots up to a multiple of three |
| CertificateBlocks.FixedTablesShape | frontend/src/services/pdfService.js:570-712 | every channel row is laid out for three points |
| CertificateBlocks.ChannelsSpec | frontend/src/services/pdfService.js:523-533 | the channels are the channel numbers the points carry, each once, increasing |
| CertificateBlocks.KeysSpec | frontend/src/services/pdfService.js:523-533 | every point belongs to one key's group; numbered groups come first, increasing |
| CertificateBlocks.SortedChannelSpec | frontend/src/services/pdfService.js:535-543 | a group holds exactly its key's points, sorted by volume |
| CertificateBlocks.MultichannelSpec | frontend/src/services/pdfService.js:520-568 | one block per channel titled `Canal c:`, holding that channel's points sorted and padded |
| CertificateBlocks.RepeaterSpec | frontend/src/services/pdfService.js:1113-1145 | one section per syringe in increasing volume, titled `Seringa de …:`, holding its side-by-side tables |
| CertificateBlocks.MeasurementBlocksSpec | frontend/src/services/pdfService.js:506-518 | single-channel points are drawn side by side, multichannel ones per channel |
| CertificateBlocks.RenderCheckSpec | frontend/src/services/pdfService.js:50-65 | rendering proceeds exactly when every input is present, and the first missing one names the error |
| CertificateBlocks.RenderCheckIndependent | frontend/src/services/pdfService.js:57-65 | a repeater is checked for syringes only, anything else for points only |
| Sorting.SortBy | frontend/src/services/pdfService.js:718-722 | the sorted points are a permutation of the points, in increasing volume |
| Sorting.SortStable | frontend/src/services/pdfService.js:718-722 | points of equal volume keep their input order |
| Notifications.Classify | backend/src/models/Notificacao.js:52-80 | error up to 10 days left, warning up to 60, info beyond; the expired title exactly at 0 days or fewer |
| Notifications.ClassifyMonotone | backend/src/models/Notificacao.js:52-80 | fewer days left is never less urgent |
| Notifications.FindExpiry | backend/src/models/Notificacao.js:83-89 | the first notice for that equipment and due date |
| Notifications.CreateExpiry | backend/src/models/Notificacao.js:83-101 | the existing notice is returned, or a new unread one is appended |
| Notifications.CreatePreserves | backend/src/models/Notificacao.js:83-101 | ids stay unique and no second notice for the same equipment and date appears |
| Notifications.CreateIdempotent | backend/src/models/Notificacao.js:83-101 | asking twice creates at most once |
| Notifications.Active | backend/src/models/Notificacao.js:105-107 | at most 20 unread notifications, all stored |
| Notifications.ActiveNewestFirst | backend/src/models/Notificacao.js:105-107 | the active list runs newest first |
| Notifications.ActiveKeepsNewest | backend/src/models/Notificacao.js:105-107 | an unread notification is left out only when the list is full, and is no newer than any listed one |
| Notifications.MarkRead | backend/src/controllers/notificacoesController.js:20-37 | 404 when no notification has that id |
| Notifications.MarkReadSpec | backend/src/controllers/notificacoesController.js:20-37 | with unique ids, exactly that notification's `lida` becomes true |
| Notifications.MarkAllSpec | backend/src/controllers/notificacoesController.js:42-52 | after marking all, nothing is unread and the active list is empty |
| Notifications.ProcessPreserves | backend/src/controllers/notificacoesController.js:76-103 | processing only appends, keeps ids unique and never duplicates a notice |
| Notifications.ProcessCovers | backend/src/controllers/notificacoesController.js:76-103 | afterwards every request has its notice |
| Notifications.ProcessTwice | backend/src/controllers/notificacoesController.js:76-103 | a second run, at any time, changes nothing |
| Expiry.MatchAtSound | backend/src/controllers/notificacoesController.js:63-64 | a match has the pattern's shape and its numbers are its digits |
| Expiry.MatchAtComplete | backend/src/controllers/notificacoesController.js:63-64 | wherever the shape occurs, the pattern matches it there |
| Expiry.NoMatchInside | backend/src/controllers/notificacoesController.js:63-64 | no match starts inside another |
| Expiry.MatchesSpec | backend/src/controllers/notificacoesController.js:63-71 | the matches are exactly the positions where the pattern matches, once each, in order; none exactly when it matches nowhere |
| Expiry.DueDateInRange | backend/src/controllers/notificacoesController.js:77-79 | for months 01 to 12 the due date is the first of that month |
| Expiry.EquipmentName | backend/src/controllers/notificacoesController.js:88-93 | the trimmed text before the first comma |
| Expiry.AsWrittenFirstLineWins | backend/src/controllers/notificacoesController.js:88-93 | a second-line match whose text also occurs in the first line is attributed to the first line |
| Expiry.AtSecondLine | backend/src/controllers/notificacoesController.js:88-93 | attributed by position, it belongs to the second line |
| Expiry.NumbersOfMatch | backend/src/controllers/notificacoesController.js:77-78 | the month and year of a match are the numbers written in its text |
| Expiry.AsWrittenAcrossLines | backend/src/controllers/notificacoesController.js:88-93 | a match whose white space runs over a line feed lies in no line, so its equipment is "Equipamento não identificado" |
| Expiry.RequestsForSpec | backend/src/controllers/notificacoesController.js:76-103 | a match is notified exactly when its due date is at most 90 days away, in match order, naming the equipment the attribution gives it |
| Expiry.RequestsSpec | backend/src/controllers/notificacoesController.js:76-103 | the controllers' requests: one per match due within 90 days, in text order, naming the equipment of the first line that contains the match's text |
| Expiry.SameTextSameRequest | backend/src/controllers/notificacoesController.js:77-99 | two matches with the same text ask for the same equipment and due date, wherever they lie |
| Expiry.CorrectedOnlyRenames | backend/src/controllers/notificacoesController.js:88-93 | the corrected attribution changes only the equipment a request names, not which matches are notified or when they are due |
| Expiry.NoMatchNoRequest | backend/src/controllers/notificacoesController.js:66-71 | a text without a match asks for nothing |
| ExpiryChecks.Check | backend/src/controllers/notificacoesController.js:57-113 | 200 with a count, or 500 exactly when reading the configuration or a notification call fails, with nothing written when the configuration fails; a text without dates gives the fixed message |
| ExpiryChecks.CheckCounts | backend/src/controllers/notificacoesController.js:82-108 | the reply counts the matches due within 90 days, created before or not |
| ExpiryChecks.CheckTwice | backend/src/controllers/notificacoesController.js:57-113 | a second check creates nothing more |
| ExpiryChecks.CheckAfterUpdateSpec | backend/src/controllers/configuracoesController.js:5-37 | the check after an update leaves a notice per request, or per request before a failure, which is swallowed |
| ExpiryChecks.UpdatePadroesUtilizados | backend/src/controllers/configuracoesController.js:55-79 | 400 exactly for a missing or empty text; then 500 exactly when saving the configuration fails, with nothing written; otherwise the text is stored and the reply is 200 |
| ExpiryChecks.UpdateAgreesWithCheck | backend/src/controllers/configuracoesController.js:65-79 | an update succeeds exactly when the configuration can be saved, and the notifications after it are those the check would leave on the new text |
| Configuration.GetConfiguracao | backend/src/models/Configuracao.js:15-21 | the first document, created with the default text when there is none |
| Configuration.UpdatePadroes | backend/src/models/Configuracao.js:23-30 | the first document's text is set and the other documents kept |
| Configuration.GetIdempotent | backend/src/models/Configuracao.js:15-21 | a second read changes nothing |
| Configuration.UpdateThenGet | backend/src/models/Configuracao.js:15-30 | what is read after an update is the text written |
| Accounts.FindEmail | backend/src/controllers/usuariosController.js:21 | the first user with that email, or none has it |
| Accounts.Login | backend/src/controllers/usuariosController.js:17-50 | a session exactly for a verified user whose password matches; 401 for an unverified one |
| Accounts.LoginDoesNotTellWhy | backend/src/controllers/usuariosController.js:25-46 | an unknown email and a wrong password get the same reply |
| Accounts.Register | backend/src/controllers/usuariosController.js:55-95 | 201 exactly for a new email with every field; 400 otherwise with nothing changed |
| Accounts.RegisterSpec | backend/src/controllers/usuariosController.js:66-76 | the new user is verified, holds the given fields, and is administrator only when asked |
| Accounts.RegisterPreserves | backend/src/controllers/usuariosController.js:55-95 | ids and emails stay unique |
| Accounts.UpdateProfile | backend/src/controllers/usuariosController.js:126-181 | 404 for an unknown user; a new password needs the current one, and it must match; a taken email fails |
| Accounts.EditedProfileSpec | backend/src/controllers/usuariosController.js:131-160 | no new password keeps the password; the standards text changes only when given |
| Accounts.UpdateUser | backend/src/controllers/usuariosController.js:215-242 | 404 for an unknown user; a taken email fails; otherwise the edit is stored |
| Accounts.EditedByAdminSpec | backend/src/controllers/usuariosController.js:224 | `isAdmin: false` revokes, an absent one keeps, the password never changes |
| Accounts.UpdatesPreserve | backend/src/controllers/usuariosController.js:126-242 | both updates keep ids and emails unique |
| Accounts.RequestReset | backend/src/controllers/usuariosController.js:324-374 | 400 without an email; 200 otherwise; a token is added exactly for a known email |
| Accounts.ResetReplyRevealsEmail | backend/src/controllers/usuariosController.js:337-366 | both answers are 200 but their messages differ |
| Accounts.RequestResetUniform | backend/src/controllers/usuariosController.js:335 | every given email gets the same 200 answer; the tokens stored are those of the handler |
| Accounts.UniformResetHidesEmail | backend/src/controllers/usuariosController.js:335 | with the uniform answer a registered and an unknown email get the same reply, though only one stores a token |
| Accounts.ResetPassword | backend/src/controllers/usuariosController.js:379-432 | the password is checked before the token; success exactly for a usable token of an existing user |
| Accounts.ResetOnce | backend/src/controllers/usuariosController.js:394-418 | a token resets a password once |
| Accounts.ResetPreserves | backend/src/controllers/usuariosController.js:324-432 | resets keep ids and emails unique |
| Accounts.Heartbeat | backend/src/controllers/usuariosController.js:265-280 | the user's heartbeat is set to now and it is online; 404 for an unknown id |
| Accounts.ActiveUsers | backend/src/controllers/usuariosController.js:304-319 | the active users and only those |
| Accounts.ActiveUsersSpec | backend/src/controllers/usuariosController.js:304-319 | a user is listed exactly when stored and active, latest heartbeat first |
| Accounts.HeartbeatMakesActive | backend/src/controllers/usuariosController.js:265-319 | a verified user that just sent a heartbeat is listed for the next minute |
| ProfileForm.Set | frontend/src/pages/ConfiguracoesPage.jsx:276-290 | the field named takes the value and every other field is kept |
| ProfileForm.ValidEmailIffPattern | frontend/src/pages/ConfiguracoesPage.jsx:132 | the computed check accepts exactly what `/^[^\s@]+@[^\s@]+\.[^\s@]+$/` accepts |
| ProfileForm.ValidateSpec | frontend/src/pages/ConfiguracoesPage.jsx:119-177 | valid exactly when the name, email, cargo, setor and password rules all hold |
| ProfileForm.EmailFieldSpec | frontend/src/pages/ConfiguracoesPage.jsx:128-134 | the email has no error exactly when it fits the pattern |
| ProfileForm.Edit | frontend/src/pages/ConfiguracoesPage.jsx:276-290 | the field changes and only its error is blanked |
| ProfileForm.LoadHasNoChanges | frontend/src/pages/ConfiguracoesPage.jsx:73-115 | a freshly loaded page has no changes; typing a new password makes one |
| ProfileForm.ValidRequestHasCurrentPassword | frontend/src/pages/ConfiguracoesPage.jsx:180-211 | a valid page never sends a password change without the current password |
| ProfileForm.ClearedStandardsRefused | frontend/src/pages/ConfiguracoesPage.jsx:228-231 | clearing the standards text passes validation and is refused by the server |
| ProfileForm.AfterSave | frontend/src/pages/ConfiguracoesPage.jsx:227-241 | a successful save clears the password fields and the errors, keeps the profile fields, and makes the standards text the new original |
| ProfileForm.SubmitMessage | frontend/src/pages/ConfiguracoesPage.jsx:248-254 | the server's message, else the error's own, else the fixed text |
| ProfileForm.Save | frontend/src/pages/ConfiguracoesPage.jsx:179-255 | an invalid form shows its field errors and sends nothing; a failed request shows only the submit error and keeps the form and the original standards; a successful one is AfterSave |
| ProfileForm.SaveErrors | frontend/src/pages/ConfiguracoesPage.jsx:175-255 | the page shows no error exactly when the form was valid and the requests succeeded; every field error shown is the form's current one |
| ProfileForm.AfterSaveChanges | frontend/src/pages/ConfiguracoesPage.jsx:234-239 | after a save, changes remain only where a profile field differs |
| Dashboard.RelativeAge | frontend/src/pages/DashboardPage.jsx:199-213 | the unit is chosen by the interval the age lies in, and the count is the whole units elapsed |
| Dashboard.RelativeAgeMonotone | frontend/src/pages/DashboardPage.jsx:199-213 | an older notification never shows a finer unit or a smaller count |
| Dashboard.CountedInjective | frontend/src/pages/DashboardPage.jsx:208-211 | distinct counts give distinct texts |
| Dashboard.UnreadCount | frontend/src/pages/DashboardPage.jsx:161 | the badge counts the unread notifications |
| Dashboard.UnreadCountZero | frontend/src/pages/DashboardPage.jsx:161 | the badge is zero exactly when every notification is read |
| Dashboard.MarkReadLocal | frontend/src/pages/DashboardPage.jsx:180-182 | the notification with that id becomes read and nothing else changes |
| Dashboard.MarkReadLocalCount | frontend/src/pages/DashboardPage.jsx:177-186 | the badge drops by the number of unread notifications with that id |
| Dashboard.MarkReadAgrees | frontend/src/pages/DashboardPage.jsx:177-186 | the page's update agrees with the server's |
| Dashboard.MarkAllLocalSpec | frontend/src/pages/DashboardPage.jsx:189-196 | after marking all the badge is zero and the list matches the server's |
| Dashboard.WithColors | frontend/src/pages/DashboardPage.jsx:59-63 | every user keeps its record, gets a palette colour, and is marked current exactly when its id is the logged-in one |
| Dashboard.ColorsCycle | frontend/src/pages/DashboardPage.jsx:41-63 | colours repeat every eight users, and eight neighbours differ |
| Dashboard.OneCurrentUser | frontend/src/pages/DashboardPage.jsx:59-63 | with unique ids at most one user is marked current |
| ClientSearch.Search | frontend/src/pages/SelecionarClientePage.jsx:49-51 | the listed clients are exactly the stored ones that match |
| ClientSearch.SearchMembership | frontend/src/pages/SelecionarClientePage.jsx:49-51 | a client is listed exactly when the lower-cased term occurs in its lower-cased name |
| ClientSearch.SearchKeepsOrder | frontend/src/pages/SelecionarClientePage.jsx:49-51 | results keep the list's order |
| ClientSearch.EmptySearchKeepsAll | frontend/src/pages/SelecionarClientePage.jsx:49-51 | an empty term lists every client |
| ClientSearch.CaseInsensitive | frontend/src/pages/SelecionarClientePage.jsx:49-51 | the casing of ASCII letters in the term does not matter |
| ClientSearch.NarrowingSearch | frontend/src/pages/SelecionarClientePage.jsx:49-51 | a client listed for a term is listed for every prefix of it |
| JsNumber.ExponentExamples | frontend/src/pages/EmitirCertificadoPage.jsx:206-209 | `parseFloat` reads an exponent part ("2e1" is 20, "1.5E-1" is 0.15) and stops before an `e` without digits ("2e" is 2) |
| JsNumber.FormatFixedRoundTrip | frontend/src/pages/EmitirCertificadoPage.jsx:1523-1528 | `parseFloat(x.toFixed(d))` is x rounded half away from zero to d decimals |
| JsNumber.ShortStringRoundTrip | frontend/src/pages/EmitirCertificadoPage.jsx:1802 | the text `toString` writes for a generated value reads back as the value rounded to two decimals |
| JsText.SplitJoin | frontend/src/pages/EmitirCertificadoPage.jsx:1770-1773 | the comma pieces joined by commas give the text back |

## Left out

- React state, effects, timers and rendering are left out. Each handler is a function from the form before to the form after. The 100 ms delay before propagation is not modelled.
- Numbers are exact reals, not IEEE doubles. `toFixed` is exact rounding half away from zero, so binary rounding artefacts are not modelled. For a magnitude of 10^21 or more JavaScript's `toFixed` gives the exponent form of `toString` instead; that branch is not modelled (see PdfFormat.FormatFixedShape). `Math.sqrt` is characterised by its square and its sign.
- `Math.random()` is a parameter: a draw function indexed by call. The clock (`Date.now()`, `new Date()`) is a parameter too. Every notice created in one run shares one `now`.
- `toLocaleDateString("pt-BR")` and `formatarDataLocal` are left out. The locale date is a string parameter of the dashboard text and the data block.
- `formatNumberInput` and `formatTemperature` from the frontend `utils` directory are not part of this model. The ± buttons and the nominal-volume handler take the text they produce as given.
- PDF styling is left out: fonts, colours, margins in points, images, header, footer and background. So are `baixarPDF`, `abrirPDF` and the image loaders. `criarTabelasVerticais` and `criarBlocosMedicoes` are never called and are left out. Tables are an abstract structure of cells, widths and rules.
- A database call is modelled only by its effect on an in-memory store. In the expiry checks a failing notification call is the parameter `failAt`, and a failing read or save of the configuration document is the parameter `configFails`; a configuration read that creates the default document and then fails to save it is modelled as failing before anything is written. Concurrent requests, Mongoose validation, `.select` projections and indexes other than the unique email are left out.
- Password hashing (bcrypt, the `pre('save')` hook) is the parameter `matches`. Tokens (JWT) and email sending are left out. The reset token and its expiry are parameters.
- `getUsuarios`, `getUsuarioById`, `deleteUsuario`, `setOffline`, `getUsuarioPerfil` and `getNotificacoes` are plain reads or deletes with no logic beyond a 404. They are left out, as are the services that only call the server.
- `padroesUtilizados` is not a field of the user schema, so a real save may drop it. The model keeps it as sent.
- Error texts that come from exceptions (`error.message`) are fixed placeholder strings.
- `parseFloat` does not read the `Infinity` literal. The model gives `NaN` for "Infinity" and "-Infinity", where JavaScript gives an infinity. So the syringe parser and the assistant's propagation drop such a reading, where the page would keep it. A parsed number too large for a double does not become an infinity either, since numbers are exact reals.
- Case mapping covers ASCII and Latin-1 only. `toLowerCase` and `toUpperCase` leave every character above U+00FF unchanged, where JavaScript maps letters such as `Ł`/`ł`.
- ClientSearch.Search: ignores case only for ASCII and Latin-1 letters, so the term "ł" does not find the client "Łódź", which the page would find.
- PdfFormat.UpperOrNA: upper-cases only ASCII and Latin-1 letters, so "łukasz" is shown as "łUKASZ" where the page shows "ŁUKASZ". The same holds for the address line of the data block.
- PdfFormat.FormatAddressSpec: upper-cases the state only for ASCII and Latin-1 letters, so a state written with `ł` keeps it lower-case where the page upper-cases it.
- PdfFormat.FormatFixedShape: holds only below 10^21 in magnitude. From there JavaScript's `toFixed` returns the exponent form, so 1.5e21 gives "1.5e+21", with an `e` and a `+`; the model writes plain digits.
- PdfFormat.FormatDecimalNumber: for a magnitude of 10^21 or more the page shows the exponent form with a comma, "1,5e+21", which does not read back as the rounded number; the model shows plain digits. Such a reading can now be parsed, since `parseFloat` reads an exponent.
- Accounts.Login, Accounts.RequestReset, Accounts.ResetPassword, Accounts.Heartbeat and Accounts.ActiveUsers: a user-store call that throws, or an email lookup that runs past its 15-second `maxTimeMS`, answers 500 (with the error's message, or the handler's fixed text for the two reset handlers); the model's stores never fail. A reset email that cannot be sent after the token is stored is a failure of this kind too.
- Accounts.Register, Accounts.UpdateProfile and Accounts.UpdateUser: the same failures answer 400 with the error's message; they are not modelled.
- ProfileForm.Save: does not say which request failed. When the profile update succeeds and the standards update fails, the server already holds the new profile and the page's stored copy of the user (`localStorage`, the `userUpdated` event) is refreshed; neither is modelled. The success message and the loading flag are left out.
- JavaScript strings are UTF-16. Here a string is a sequence of code points, so lengths differ only for characters outside the Basic Multilingual Plane.
- `getNotificationIcon` (a choice of icon) is left out.
- Draft.SetReadingOnly: an index past the ten slots is ignored, whereas JavaScript would grow the array. The page only passes indexes 0 to 9.
- Draft.ChannelIdsDistinct: distinctness is proved only for at most 100 positions per channel, because beyond that ids collide (Draft.ChannelIdsCollide).
- AutoFill.SimilarValues: when a draw was capped after the 51st attempt, only closeness and the count bound are promised, because the source then keeps an unchecked value.
- Statistics.DeviationMany: `Math.sqrt` is a parameter, so the deviation is stated as that function applied to the sample variance, not as a number.

## Findings

| source | as written | input that shows it | evidently intended | confidence | as-written member | corrected member |
|---|---|---|---|---|---|---|
| backend/src/controllers/notificacoesController.js:88-93 | the equipment of an expiry match is taken from the first line of the text that contains the match's text `(Validade MM/YYYY)`, wherever the match was found; configuracoesController.js does the same | the default configuration text: two lines both ending in `(Validade 08/2026)`; the second line's match is attributed to the first line's equipment, so both requests name the same equipment and due date and the store keeps one notice; also a match whose white space runs over a line feed, which is found in no line | the equipment of the line in which the match occurs | not executed | Expiry.AsWrittenFirstLineWins | Expiry.AtSecondLine |
| backend/src/controllers/usuariosController.js:335-367 | the comment at line 335 says the reply must not reveal whether the email exists, but an unknown email is answered "Se o email estiver cadastrado, …" and a registered one "Email de recuperação enviado. …" | any store with one registered email, asked once for it and once for another address | the same answer for both | not executed | Accounts.ResetReplyRevealsEmail | Accounts.UniformResetHidesEmail |

The controllers are modelled as written. `Expiry.Requests`, and through it
`ExpiryChecks.Check` and `ExpiryChecks.UpdatePadroesUtilizados`, use the
first-line attribution (`Expiry.EquipmentAsWritten`); `Expiry.RequestsSpec`,
`Expiry.SameTextSameRequest` and `Expiry.AsWrittenAcrossLines` state its
consequences. The corrected attribution is `Expiry.EquipmentAt`, and
`Expiry.CorrectedRequests` builds the requests with it;
`Expiry.CorrectedOnlyRenames` shows that the two sets of requests differ only
in the equipment they name.

`Accounts.RequestReset` is likewise modelled as written;
`Accounts.RequestResetUniform` answers every given email with the first
message and stores the same tokens.
