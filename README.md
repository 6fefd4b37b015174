# Air-quality IoT backend: a verified model of its computational core

This project models the parts of a NestJS backend for air-quality sensors ("things" that
carry devices, each device measuring parameters against coloured thresholds) that compute
something, and proves what they compute. It covers:

- **Classifying readings** (`thing.dfy`, module `ThingService`).
  - A reading is classified into one of a parameter's half-open `[min, max)` thresholds. The scan runs forward and the last match wins. When nothing matches, the last threshold is used.
  - Each device's measured parameters are evaluated into `Normal`/`Warning` entries.
  - A thing is updated in place: one device slot is replaced by name, all devices are deactivated on a status change, and deletion has its guards.
- **The index remap** (`iaqi.dfy`, module `ParameterStandardConstants`). A classified reading is mapped into the canonical index range of the bucket that has the same name.
- **Notifications** (`notification.dfy`, module `NotificationService`):
  - sequential `$n` placeholder substitution;
  - flattening the evaluated devices into one list;
  - the unread count of a page;
  - the receivers and the makeup of a threshold-warning notification.
- **Utilities**:
  - duplicate and membership tests over arrays of objects (`array_utils.dfy`);
  - in-place property deletion and first-occurrence deduplication of a nested array (`object_utils.dfy`);
  - hexadecimal to padded binary (`string_utils.dfy`).
- **The validators** `IsSmallerThan` and `IsBiggerThan` (`validations.dfy`).
- **Request transforms** (`requests.dfy`):
  - JavaScript `Number()` coercion;
  - the pagination `skip` shared by five list requests;
  - the `exclude_roles` parser;
  - the two normalize pipes of the notification queries, which default `page` and `limit` in place.
- **Update builders**:
  - the `$set` document of the administrator's account update and the defaults of a new account (`system_management.dfy`);
  - the profile update and the password-change outcome of the user service (`user_service.dfy`).

The shared helpers are:

- `wrappers.dfy`:
  - `Option` and `Result`;
  - the JavaScript value shapes that the code tells apart;
  - a few facts over sequences.
- `strings.dfy`, the string built-ins the code relies on:
  - first-occurrence `replace`;
  - `toLowerCase` and `toUpperCase` over ASCII;
  - `split` on one character;
  - `parseInt` and `toString(radix)`.

Where the code mutates state, the model does too:

- a `Thing` class whose methods update its device list and status;
- a `JsObject` class whose `DeleteProps` deletes keys in place;
- query classes that the normalize pipes modify.

Loops in the code are methods with loop invariants, and each is proved equal to a specifying function:

- the threshold scan;
- the evaluation `forEach`;
- placeholder substitution;
- flattening;
- the device deactivation map;
- key deletion.

Names that the modelled files import but do not define are parameters:

- the canonical threshold table;
- the names counted as acceptable (GOOD, MODERATE, SENSITIVE_UNHEALTHY);
- the notification template and its formatted argument;
- the radixes, bit length and padding digit of `hex2bin`;
- the pagination defaults.

The results of database lookups, mail sending and password hashing are parameters too.

## Model

| member | source | states |
|---|---|---|
| ThingService.Resolve | src/modules/thing/thing.service.ts:1037-1045 | The chosen threshold is always one of the list. It is the last threshold that contains the reading when several do. It is the last threshold of the list when none does. It contains the reading whenever some threshold does. |
| ThingService.ResolveAtSharedBoundary | src/modules/thing/thing.service.ts:1040 | Thresholds are half-open. A reading equal to one bucket's `max` and the next bucket's `min` is not in the lower bucket and resolves to the upper one. |
| ThingService.GetThingValueThreshold | src/modules/thing/thing.service.ts:1037-1045 | The forward scan that lets every later match override earlier ones returns exactly `Resolve`. |
| ThingService.EvaluateParameter | src/modules/thing/thing.service.ts:998-1028 | An entry copies name, unit and weight. Its value is the non-zero reading under the parameter's key. Its threshold is exactly the one `getThingValueThreshold` picks for that value (`Resolve`). Its type is `TypeOf` that threshold: `Normal` iff the threshold's name is an acceptable one, `Warning` otherwise. |
| ThingService.MeasuredParameters | src/modules/thing/thing.service.ts:993-996 | No longer than the list. Every parameter it keeps comes from the list and has a present, non-zero reading, and every such parameter of the list is kept. When every reading is truthy, the list is unchanged. |
| ThingService.MeasuredParametersAppend | src/modules/thing/thing.service.ts:992-996 | Filtering concatenated lists concatenates the filtered lists, so the kept parameters stay in list order. |
| ThingService.ReadingKeyShape | src/modules/thing/thing.service.ts:993 | The reading key of a name without '.' is the name lower-cased. The key of a name with a '.' is one character shorter, because only the first '.' is removed. |
| ThingService.TypeOf | src/modules/thing/thing.service.ts:999-1027 | `Normal` (TYPE.NORMAL) iff the threshold name is one of the acceptable names, `Warning` (TYPE.WARNING) otherwise. |
| ThingService.EvaluatedParameters | src/modules/thing/thing.service.ts:992-1030 | The forEach's entries are never more than the parameters, and each entry's type is `TypeOf` its threshold. |
| ThingService.EvaluateDevice | src/modules/thing/thing.service.ts:982-1031 | An evaluated device copies name, model, status, parameter standards and the default flag, and has no more entries than parameter standards. |
| ThingService.EvaluatedParametersAreMeasured | src/modules/thing/thing.service.ts:992-1030 | There is exactly one entry per parameter with a truthy reading, in parameter order. Parameters whose reading is absent or 0 yield nothing. |
| ThingService.EvaluatedParametersAppend | src/modules/thing/thing.service.ts:992-1030 | Evaluating concatenated parameter lists concatenates their entries, so the `forEach` keeps order. |
| ThingService.EvaluatedParametersSingle | src/modules/thing/thing.service.ts:993-996 | One parameter yields no entry for a falsy reading and one entry otherwise. |
| ThingService.Validated | src/modules/thing/thing.service.ts:977-1034 | `undefined` iff the device list is empty. Otherwise there is one evaluated device per device, in order. Each copies name, model, status, parameter standards and the default flag, and carries its parameters' evaluations. |
| ThingService.EvaluateParameterStandards | src/modules/thing/thing.service.ts:992-1030 | The push loop over one device's parameter standards builds exactly the specified entries. |
| ThingService.ValidateThingData | src/modules/thing/thing.service.ts:977-1034 | The device loop returns exactly `Validated`. |
| ThingService.FindDeviceIndex | src/modules/thing/thing.service.ts:697-699 | `findIndex`: the first index whose device has the name, or none when no device has it. |
| ThingService.ReplacementDevice | src/modules/thing/thing.service.ts:714-728 | The new device has the request's name and model and nothing set beyond its standards. The standards are the request's when `parameterStandardDefault === false`. Otherwise they are the device model's, and when no device model matches, the getDeviceModel lookup fails with `device-model-not-exist` and no device is built. |
| ThingService.UpdateDevices | src/modules/thing/thing.service.ts:697-730 | A failure carries one of the four messages `device-not-exist`, `device-name-exist`, `no-permission` and `device-model-not-exist`. A success keeps the list length, contains a device with the new name, and implies the user is a manager. |
| ThingService.UpdateDevicesErrors | src/modules/thing/thing.service.ts:697-728 | `device-not-exist` iff no device has `deviceName`. `device-name-exist` iff the device exists and the new name differs and is already used. `no-permission` iff those guards pass and the user is not a manager. `device-model-not-exist` iff all three pass, the defaults are asked for and no device model matches. Success iff the device exists, the name is free or unchanged, the user is a manager, and either the request brings its own standards or the device model exists. |
| ThingService.UpdateDevicesReplacesOneSlot | src/modules/thing/thing.service.ts:713-730 | On success only the slot of the first device named `deviceName` changes, and the length is kept. The slot holds a device with only name, model and standards; the standards are the request's iff `parameterStandardDefault === false`. |
| ThingService.UpdateDevicesKeepsNamesDistinct | src/modules/thing/thing.service.ts:697-730 | A successful update keeps device names unique when they were unique. |
| ThingService.Deactivated | src/modules/thing/thing.service.ts:845-848 | The map keeps the length and sets each device's status to INACTIVE, with every other field unchanged. |
| ThingService.DeactivatedIsIdempotent | src/modules/thing/thing.service.ts:889-892 | After the map every device is inactive and keeps its name, and a second map changes nothing. |
| ThingService.Thing.UpdateAssociatedDevice | src/modules/thing/thing.service.ts:684-750 | On success the device list becomes the updated list in place, `updatedBy` is the user, and the result is the new name. On each of the four failures, including a missing device model, nothing changes. Status, managers and the deleted flag are untouched. |
| ThingService.Thing.DeactivateDevices | src/modules/thing/thing.service.ts:845-848 | The in-place loop leaves the device list equal to `Deactivated` of the old list and changes no other field. |
| ThingService.Thing.UpdateStatusActive | src/modules/thing/thing.service.ts:836-860 | The thing becomes ACTIVE and all of its devices INACTIVE, with nothing else changed. |
| ThingService.Thing.UpdateStatusInactive | src/modules/thing/thing.service.ts:880-904 | The thing and all of its devices become INACTIVE, with nothing else changed. |
| ThingService.Thing.Delete | src/modules/thing/thing.service.ts:791-825 | A non-manager gets `no-permission`. A manager gets `thing-not-allowed-delete` unless the status is PENDING_SETUP. Success happens exactly otherwise: it sets the deleted flag and `updatedBy` and returns the id. Failures change nothing. |
| ParameterStandardConstants.Remap | src/modules/parameter-standard/parameter-standard.constants.ts:18-20 | What the code computes equals `a + (v - x)(b - a) / (100 (y - x))`, for `y != x`. |
| ParameterStandardConstants.RemapAtMin | src/modules/parameter-standard/parameter-standard.constants.ts:18-20 | `v = x` gives exactly `a`. |
| ParameterStandardConstants.RemapBounds | src/modules/parameter-standard/parameter-standard.constants.ts:18-21 | For `v` in `[x, y]` with `x < y` and `a <= b`, the result lies in `[a, a + (b - a)/100]`. |
| ParameterStandardConstants.RemapDifference | src/modules/parameter-standard/parameter-standard.constants.ts:18-20 | The remap is affine: two results differ by `(v1 - v2)(b - a) / (100 (y - x))`. |
| ParameterStandardConstants.RemapMonotone | src/modules/parameter-standard/parameter-standard.constants.ts:18-20 | With ascending ranges, a larger reading never gives a smaller index. |
| ParameterStandardConstants.ConvertParameterValueToIAQI | src/modules/parameter-standard/parameter-standard.constants.ts:11-22 | The canonical range is looked up under the threshold's canonical key, and a missing key throws. Otherwise the result is the remap of the reading from the threshold's `[min, max]` into that range. |
| ParameterStandardConstants.CanonicalKey | src/modules/parameter-standard/parameter-standard.constants.ts:14-15 | The key is as long as the threshold name, since one '-' is swapped for one '_'. |
| ParameterStandardConstants.CanonicalKeyAt | src/modules/parameter-standard/parameter-standard.constants.ts:14-15 | The key is the name upper-cased, with only its first '-' turned into '_'. |
| ParameterStandardConstants.CanonicalKeyWithoutHyphen | src/modules/parameter-standard/parameter-standard.constants.ts:14-15 | A name without '-' is only upper-cased. |
| ParameterStandardConstants.RemapIntended | src/modules/parameter-standard/parameter-standard.constants.ts:4-10 | The range-to-range map the comment describes: `a + (v - x)(b - a)/(y - x)`. |
| ParameterStandardConstants.RemapIntendedFitsRange | src/modules/parameter-standard/parameter-standard.constants.ts:4-10 | The described map sends `x` to `a` and `y` to `b`, and keeps `[x, y]` inside `[a, b]`. |
| ParameterStandardConstants.RemapFallsShortOfRange | src/modules/parameter-standard/parameter-standard.constants.ts:18-21 | With 120 in `[100, 500]` and canonical range `[150, 200]`, the code gives 150.025 where the described map gives 152.5. The top reading 500 gives 150.5, not 200. |
| NotificationService.Placeholder | src/modules/notification/notification.service.ts:221 | The placeholder of an argument is '$' followed by its 1-based position in decimal, with no leading zero; reading the digits back gives the position. |
| NotificationService.Substituted | src/modules/notification/notification.service.ts:218-224 | No arguments leave the content unchanged. Each step and its effect are stated by `SubstitutedStep` and `SubstitutedStepAbsent`. |
| NotificationService.GenerateContent | src/modules/notification/notification.service.ts:218-224 | The substitution loop returns the text after every replacement step, each step acting on the text the previous one produced. |
| NotificationService.SubstitutedStep | src/modules/notification/notification.service.ts:220-222 | A step replaces only the first occurrence of its placeholder. The text before it is kept, the argument is inserted, the rest follows unchanged, and later occurrences remain. |
| NotificationService.SubstitutedStepAbsent | src/modules/notification/notification.service.ts:221 | A step whose placeholder does not occur leaves the text unchanged. |
| NotificationService.SubstitutedWithoutDollar | src/modules/notification/notification.service.ts:218-224 | Text and arguments without '$' come out unchanged; in particular, no arguments means no change. |
| NotificationService.PlaceholderExamples | src/modules/notification/notification.service.ts:221 | The first and tenth placeholders are "$1" and "$10". |
| NotificationService.SubstitutedPrefixPlaceholder | src/modules/notification/notification.service.ts:220-222 | "$1" matches the prefix of "$10": substituting "X" gives "X0". |
| NotificationService.SubstitutedSequentially | src/modules/notification/notification.service.ts:220-222 | Text inserted by an earlier argument is seen by later steps: "$1" with ["$2", "b"] gives "b". |
| NotificationService.FlattenAppend | src/modules/notification/notification.service.ts:210-215 | Flattening concatenated device lists concatenates the flattenings, and the entry counts add up. |
| NotificationService.Flatten | src/modules/notification/notification.service.ts:210-215 | Every entry of the flattened list is an entry of one of the devices. |
| NotificationService.FlattenLength | src/modules/notification/notification.service.ts:210-215 | The flattened list is as long as the sum of the devices' entry counts. |
| NotificationService.FlattenMembership | src/modules/notification/notification.service.ts:211-213 | An entry is in the flattened list iff it is an entry of some device. |
| NotificationService.ClassifyTypeAndTitle | src/modules/notification/notification.service.ts:203-216 | The push loop returns the flattening of the evaluated devices. It throws exactly when `validateThingData` gave `undefined`. |
| NotificationService.ClassifyFlattened | src/modules/notification/notification.service.ts:206-215 | As written, the classification fails exactly when `validateThingData` returned `undefined`. |
| NotificationService.ClassifyWithoutDevicesFails | src/modules/notification/notification.service.ts:206-211 | A thing without devices gets `undefined` from `validateThingData`, so the `forEach` throws. |
| NotificationService.ClassifyTypeAndTitleCorrected | src/modules/notification/notification.service.ts:210-215 | With `undefined` read as no devices, the result is empty for a thing without devices. Its length is always the total entry count. |
| NotificationService.ClassifyCorrectedAgrees | src/modules/notification/notification.service.ts:210-215 | The corrected classification equals the original wherever the original does not throw. |
| NotificationService.Unread | src/modules/notification/notification.service.ts:176-180 | The filter keeps only entries whose `readAt` is strictly `null`, all taken from the page, and is no longer than the page. |
| NotificationService.IsUnread | src/modules/notification/notification.service.ts:176-178 | The strict `=== null` test: an unread entry holds a single value, and an entry whose `readAt` is missing is not unread. |
| NotificationService.TotalUnread | src/modules/notification/notification.service.ts:176-180 | `undefined` iff the aggregation returned no result. Otherwise the count is at most the page length. |
| NotificationService.UnreadCountExtremes | src/modules/notification/notification.service.ts:176-180 | The count equals the page length iff every entry is unread. It is 0 iff none is. |
| NotificationService.UnreadAppend | src/modules/notification/notification.service.ts:176-180 | Filtering is additive over consecutive stretches of a page. |
| NotificationService.Receivers | src/modules/notification/notification.service.ts:39-59 | There is one receiver per manager, in manager order. Each carries the manager's user id and `readAt` null. |
| NotificationService.ReceiversAreManagers | src/modules/notification/notification.service.ts:39-41 | A user is a receiver iff the user manages the thing. |
| NotificationService.CreateWarningThresholdNotification | src/modules/notification/notification.service.ts:44-59 | The warning has the exceed-threshold title and the WARNING type. Its content is the template with `$1` replaced by the thing id and `$2` by the formatted argument. Its receivers are the managers. |
| NotificationService.FreshNotificationUnread | src/modules/notification/notification.service.ts:54-59 | A new notification is unread by every receiver. |
| NotificationService.ListedEntry | src/modules/notification/notification.service.ts:150-157 | As written, the aggregation's `readAt` of a listed notification is the array of every receiver's `readAt`, in receiver order. |
| NotificationService.TotalUnreadAsWrittenIsZero | src/modules/notification/notification.service.ts:156-180 | As written, no listed entry passes the `=== null` test, so `totalUnread` is 0 for every page. |
| NotificationService.FreshNotificationNotCounted | src/modules/notification/notification.service.ts:156-180 | A fresh warning whose receivers all have `readAt` null is still counted as 0 unread. |
| NotificationService.ReceiverReadAt | src/modules/notification/notification.service.ts:150-157 | The requesting user's `readAt` is that of the user's first receiver entry, or `undefined` when the user is not a receiver. |
| NotificationService.ListedEntryFor | src/modules/notification/notification.service.ts:156 | Corrected, a listed entry carries the requesting user's own `readAt`. |
| NotificationService.ListedEntryForUnread | src/modules/notification/notification.service.ts:176-180 | Corrected, an entry is unread iff the requesting user's first receiver entry has `readAt` null. |
| NotificationService.FreshNotificationCountedCorrected | src/modules/notification/notification.service.ts:176-180 | Corrected, a fresh warning counts as unread for every manager of the thing. |
| ArrayUtils.PropertyArray | src/shared/utils/array.utils.ts:2 | The mapped array has one entry per item: its property value, or `undefined`. |
| ArrayUtils.CheckDuplicateInArray | src/shared/utils/array.utils.ts:1-4 | A duplicate needs at least two items; the full iff is `CheckDuplicateInArrayIff`. |
| Seqs.ElementsCardinality | src/shared/utils/array.utils.ts:3 | A `Set` of an array is never larger than the array. It is exactly as large iff the array has no repeated value. |
| ArrayUtils.CheckDuplicateInArrayIff | src/shared/utils/array.utils.ts:1-4 | True iff two distinct positions hold equal property values; two missing values count as equal. |
| ArrayUtils.CheckDuplicateInArraySmall | src/shared/utils/array.utils.ts:2-3 | False for empty and one-item arrays. |
| ArrayUtils.CheckDuplicateInArrayPermutation | src/shared/utils/array.utils.ts:1-4 | Reordering the array does not change the answer. |
| ArrayUtils.CheckValueExistInObjectArray | src/shared/utils/array.utils.ts:6-13 | Throws iff some item lacks the property. Otherwise true iff some item's property, stringified, equals the value stringified. |
| ArrayUtils.CheckValueExistEmpty | src/shared/utils/array.utils.ts:11-12 | False on an empty array. |
| ArrayUtils.CheckValueExistMonotone | src/shared/utils/array.utils.ts:11-12 | Appending items never hides a throw and never turns a found value into a missing one. |
| ObjectUtils.WithoutKeys | src/shared/utils/object.utils.ts:1-8 | No listed name remains. Every unlisted key keeps its value. No key is added. |
| ObjectUtils.WithoutKeysIdempotent | src/shared/utils/object.utils.ts:1-8 | Deleting the same names twice equals deleting them once. |
| ObjectUtils.WithoutKeysCompose | src/shared/utils/object.utils.ts:2-6 | Deleting two lists in turn equals deleting their concatenation. |
| ObjectUtils.JsObject.DeleteProps | src/shared/utils/object.utils.ts:1-8 | The loop deletes the listed own properties in place. It returns the same object, whose properties become `WithoutKeys` of the old ones. |
| ObjectUtils.FlatLeaves | src/shared/utils/object.utils.ts:11 | `flat(Infinity)` of an array of plain values is that array. |
| ObjectUtils.Flat | src/shared/utils/object.utils.ts:11 | `flat(Infinity)` keeps every plain value that stands directly in the array. |
| ObjectUtils.KeepFirsts | src/shared/utils/object.utils.ts:11-13 | The `indexOf` filter keeps each value of a prefix exactly at its first occurrence, in first-occurrence order, and keeps every value of the prefix. |
| ObjectUtils.RemoveDuplicateInArray | src/shared/utils/object.utils.ts:10-14 | No two results are equal. A value is in the result iff it is in the fully flattened input. First-occurrence order is kept. |
| ObjectUtils.KeepFirstsOfDistinct | src/shared/utils/object.utils.ts:12-13 | On an array without repeats the filter keeps everything. |
| ObjectUtils.RemoveDuplicateInArrayIdempotent | src/shared/utils/object.utils.ts:10-14 | Deduplicating a result again gives it back. |
| StringUtils.PadStart | src/shared/utils/string.utils.ts:12 | A shorter string is left-filled to exactly the target length. A long enough string is returned as is. The original string always ends the result. |
| StringUtils.Hex2Bin | src/shared/utils/string.utils.ts:9-13 | The output is at least `BIT_LENGTH` long. |
| StringUtils.Hex2BinDigits | src/shared/utils/string.utils.ts:9-13 | The output is the binary digits of `parseInt(hex)` preceded by exactly the padding needed, with no padding when the digits are long enough. Reading the digits back gives `parseInt(hex)`. |
| StringUtils.Hex2BinRoundTrip | src/shared/utils/string.utils.ts:9-13 | With '0' as the padding digit, the whole output read in `BIN_RADIX` is `parseInt(hex, HEX_RADIX)`. |
| StringUtils.Hex2BinExample | src/shared/utils/string.utils.ts:9-13 | "ff" with radixes 16 and 2 and 10 bits gives "0011111111". |
| Strings.ParseNatToString | src/shared/utils/string.utils.ts:10-11 | `parseInt` of what `toString(radix)` writes gives the number back. |
| Strings.ReplaceFirstAt | src/modules/notification/notification.service.ts:221 | `replace` with a string pattern changes only the first occurrence. The text before it is kept, the replacement is inserted, and the rest follows. |
| Strings.ReplaceFirst | src/modules/notification/notification.service.ts:221 | A pattern that does not occur leaves the string unchanged. One that occurs costs its length and adds the replacement's length, as one occurrence is replaced. |
| Strings.ToLower | src/modules/thing/thing.service.ts:993 | `toLowerCase` keeps the length and maps every character on its own (ASCII letters to lower case). |
| Strings.ToUpper | src/modules/parameter-standard/parameter-standard.constants.ts:14 | `toUpperCase` keeps the length and maps every character on its own (ASCII letters to upper case). |
| Strings.NatToString | src/shared/utils/string.utils.ts:11 | `toString(radix)` writes a non-empty numeral of that radix with no leading zero, except for 0 itself. |
| Strings.ParseNatLeadingDigit | src/shared/utils/string.utils.ts:10 | `parseInt` reads one digit as its value, and a numeral whose first digit is not zero as a positive number. |
| Strings.Split | src/shared/dto/request/user/list-users.request.ts:46 | `split` on one character gives at least one piece, and no piece contains the separator. |
| Strings.JoinSplit | src/shared/dto/request/user/list-users.request.ts:46 | Joining the pieces of `split` with the separator gives the string back. |
| IsSmallerThanValidation.Validate | src/shared/validations/is-smaller-than.validations.ts:15-19 | The related value is the object's property named by the first constraint. As written, the result is true iff at least one of the two values is a number. |
| IsSmallerThanValidation.RelatedValue | src/shared/validations/is-smaller-than.validations.ts:16-17 | The related value is the object's property named by the first constraint, or `undefined` when the object lacks it. |
| IsSmallerThanValidation.ValidateIgnoresOrder | src/shared/validations/is-smaller-than.validations.ts:18 | Two numbers always pass, whichever is smaller. |
| IsSmallerThanValidation.ValidateAcceptsLarger | src/shared/validations/is-smaller-than.validations.ts:18 | 5 passes as "smaller than" 3. |
| IsSmallerThanValidation.ValidateCorrected | src/shared/validations/is-smaller-than.validations.ts:18 | The intended check: two numbers pass iff the value is smaller; other cases keep the written outcome. |
| IsSmallerThanValidation.ValidateCorrectedRejectsLarger | src/shared/validations/is-smaller-than.validations.ts:18 | The corrected check rejects 5 against 3. |
| IsBiggerThanValidation.Validate | src/shared/validations/is-bigger-than.validations.ts:15-19 | The related value is the object's property named by the first constraint. As written, the result is true iff at least one of the two values is a number. |
| IsBiggerThanValidation.RelatedValue | src/shared/validations/is-bigger-than.validations.ts:16-17 | The related value is the object's property named by the first constraint, or `undefined` when the object lacks it. |
| IsBiggerThanValidation.ValidateIgnoresOrder | src/shared/validations/is-bigger-than.validations.ts:18 | Two numbers always pass, whichever is bigger. |
| IsBiggerThanValidation.ValidateAcceptsSmaller | src/shared/validations/is-bigger-than.validations.ts:18 | 3 passes as "bigger than" 5. |
| IsBiggerThanValidation.ValidateCorrected | src/shared/validations/is-bigger-than.validations.ts:18 | The intended check: two numbers pass iff the value is bigger; other cases keep the written outcome. |
| IsBiggerThanValidation.ValidateCorrectedRejectsSmaller | src/shared/validations/is-bigger-than.validations.ts:18 | The corrected check rejects 3 against 5. |
| SystemManagementService.CreateAccount | src/modules/system-management/system-management.service.ts:49-121 | A taken email is rejected, and so is a failed activation mail. Otherwise the record: <ul><li>copies the body;</li><li>is inactive and awaits its first login, per lines 2-4 of `src/shared/constants/system-management.constants.ts`;</li><li>gets phone code '+84' only when none is given;</li><li>records its creator.</li></ul> |
| SystemManagementService.AccountChanges | src/modules/system-management/system-management.service.ts:166-186 | <ul><li>Both names are written iff either changed.</li><li>Both phone fields are written iff either changed.</li><li>`isActive` is written iff it changed.</li><li>`email` and `role` are written iff truthy, changed or not.</li><li>Values come from the body, and no other field is written.</li></ul> |
| SystemManagementService.AccountChangesSettle | src/modules/system-management/system-management.service.ts:166-186 | Once stored, the same request writes only the truthy `email` and `role` again. |
| SystemManagementService.SendMailUserInactive | src/modules/system-management/system-management.service.ts:217-239 | A mail is sent iff the new status is exactly `false`. A failed mail throws "Send mail unsuccessfully". |
| SystemManagementService.UpdateAccount | src/modules/system-management/system-management.service.ts:135-215 | <ul><li>A missing user gives `no-user-found`.</li><li>A first-login account is rejected before any update.</li><li>A status change to `false` whose mail fails aborts.</li><li>Otherwise the `$set` is `AccountChanges` plus `updatedOn`.</li></ul> |
| UserService.FindUser | src/modules/user/user.service.ts:257-270 | No record gives `no-user-found`. Otherwise the record is returned unchanged. |
| UserService.PairUpdate | src/modules/user/user.service.ts:112-115 | Both fields of a pair are written, with the request's values, iff either differs. |
| UserService.ProfileChanges | src/modules/user/user.service.ts:111-119 | Both names iff either changed, and both phone fields iff either changed. No other key is written. |
| UserService.ProfileChangesSettle | src/modules/user/user.service.ts:111-119 | Once stored, the same request asks for no change. |
| UserService.ApplyUpdate | src/modules/user/user.service.ts:111-128 | An empty `$set` changes nothing. Fields a `$set` cannot name (id, first-login flag, creator) are kept. A written name or status is stored as written. |
| UserService.UpdateProfile | src/modules/user/user.service.ts:92-138 | `data` is `ProfileChanges`, and the file is ignored. An unacknowledged update, or one that modified nothing, gives `update-profile-fail`. |
| UserService.ChangePassword | src/modules/user/user.service.ts:35-82 | <ul><li>A missing user gives `no-user-found`.</li><li>A password equal to the current one is rejected.</li><li>An unacknowledged update, or one that modified nothing, gives `change-password-fail`.</li><li>Otherwise the result is `change-password-success`.</li></ul> |
| JsNumber.TextToNumber | src/shared/dto/request/user/list-users.request.ts:46 | `Number` of a decimal numeral is its value; the empty string is 0. |
| JsNumber.OrElse | src/shared/dto/request/user/list-users.request.ts:50 | `n \|\| fallback` is `n` when `n` is neither 0 nor NaN, and the fallback otherwise. |
| JsNumber.ToNumber | src/shared/dto/request/thing/view.request.ts:37 | `Number(v)`: a number is itself, text is read by `TextToNumber`, `true` is 1 and `false` 0, `null` is 0, and `undefined` and plain objects are NaN. |
| JsNumber.TextToNumberOfNumeral | src/shared/dto/request/user/list-users.request.ts:50 | The decimal text of a number converts back to that number. |
| Pagination.SkipOfNumbers | src/shared/dto/request/device/list.request.ts:43-47 | A page and a limit that convert to non-zero numbers give `skip = (page - 1) * limit`. |
| Pagination.EffectivePage | src/shared/dto/request/device/list.request.ts:45 | The page read is the query page when that converts to a truthy number, and `PAGINATION_DEFAULT.PAGE` otherwise. It is never 0 unless the default is 0. |
| Pagination.EffectiveLimit | src/shared/dto/request/device/list.request.ts:46 | The limit read is the query limit when that converts to a truthy number, and `PAGINATION_DEFAULT.LIMIT` otherwise. It is never 0 unless the default is 0. |
| Pagination.Skip | src/shared/dto/request/system-management/list-accounts.request.ts:41-44 | The first page skips nothing. From the first page on, with a non-negative limit, `skip` is never negative. |
| Pagination.SkipFirstPage | src/shared/dto/request/notification/find-query.request.ts:27-30 | Page 1 gives `skip = 0`, whatever the limit. |
| Pagination.SkipNextPage | src/shared/dto/request/user/list-users.request.ts:50 | The next page starts exactly one limit later. |
| ListUsersRequest.UserRole | src/shared/model/user-role.model.ts:7-12 | The reverse lookup names a role exactly for 0, 1, 2 and 3: 'super-admin', 'tenant-user', 'tenant-admin', 'analyst'. |
| ListUsersRequest.RolesOf | src/shared/dto/request/user/list-users.request.ts:46 | The map-map-filter chain gives at most one role per piece, and only role names. |
| ListUsersRequest.ExcludeRoles | src/shared/dto/request/user/list-users.request.ts:46 | The output is no longer than the number of comma-separated pieces and holds only role names. |
| ListUsersRequest.RolesOfAppend | src/shared/dto/request/user/list-users.request.ts:46 | The roles of concatenated piece lists are concatenated, so order is kept. |
| ListUsersRequest.ExcludeRolesItem | src/shared/dto/request/user/list-users.request.ts:46 | A single piece yields its role, or nothing when it names none. |
| ListUsersRequest.ExcludeRolesConcat | src/shared/dto/request/user/list-users.request.ts:46 | The roles of `a,b` are those of `a` followed by those of `b`. |
| ListUsersRequest.ExcludeRolesEmpty | src/shared/dto/request/user/list-users.request.ts:46 | The empty string yields 'super-admin'. |
| ListUsersRequest.ExcludeRolesExample | src/shared/dto/request/user/list-users.request.ts:46 | "3,x," yields 'analyst' then 'super-admin': the non-numeric piece is dropped and the empty piece is role 0. |
| Strings.SplitConcat | src/shared/dto/request/user/list-users.request.ts:46 | `split` of `a + sep + b` is the pieces of `a` followed by the pieces of `b`. |
| NotificationQueryPipes.Defaulted | src/shared/dto/request/notification/normalize-list.pipe.ts:7-13 | A field that is `undefined` or `null` gets the fallback. A defined field is kept. The result is never loosely undefined. |
| NotificationQueryPipes.DefaultedIdempotent | src/shared/dto/request/notification/pine.ts:7-13 | Defaulting twice equals defaulting once. |
| NotificationQueryPipes.NormalizeListNotification | src/shared/dto/request/notification/normalize-list.pipe.ts:6-16 | Returns the same query. In place, `limit` defaults to 0 and `page` to 1, and no other field changes. |
| NotificationQueryPipes.NormalizeListNotificationIdempotent | src/shared/dto/request/notification/normalize-list.pipe.ts:6-16 | Running the pipe twice leaves the query as one run does: `limit` and `page` defaulted once, and every other field (`others`, which holds `sortBy`, `sortOrder` and `skip`) unchanged. |
| NotificationQueryPipes.NormalizeFindQuery | src/shared/dto/request/notification/pine.ts:6-16 | Returns the same query. In place, a nullish `limit` becomes 0 and a nullish `page` becomes 1, while a set one is kept; `sort_by`, `sort_order` and the derived `skip` stay unchanged. |
| NotificationQueryPipes.NormalizeFindQueryIdempotent | src/shared/dto/request/notification/pine.ts:6-16 | Running the pipe twice leaves the query as one run does: `limit` and `page` defaulted once, and `sort_by`, `sort_order` and `skip` unchanged. |

## Left out

- Database access (sessions, transactions, `findOne`/`updateOne`/`insertOne`, aggregation pipelines): the documents a lookup returns and the outcome an update reports are parameters. The `isExist` lookup that throws for a missing thing is not modelled.
- Mail, JWT and bcrypt: whether a mail was sent and whether the new password hashes to the stored hash are parameters.
- The clock: `updatedOn` is the parameter `now`, and the creation timestamps of a new account are not modelled.
- Socket publishing and the stored notification's insertion: only the notification's fields are modelled.
- JavaScript numbers are `real`: NaN is `None`, and Infinity and floating-point rounding are not modelled. The remap requires `y != x`.
- JsNumber.TextToNumber: reads only decimal integer numerals with an optional sign, and the empty string. Surrounding white space, fractions ("1.0"), exponents and hexadecimal prefixes read as NaN, although `Number` accepts them.
- The `JSON.parse` transforms of `page` and `limit` are not modelled. `skip` is computed from the raw query values, as the `obj` access does.
- ListUsersRequest.ExcludeRoles: the value is taken to be a string. A repeated query parameter arrives as an array, on which `split` throws; that case is not modelled.
- Replacement patterns such as `$&` in `String.replace` are treated as literal text. `toLowerCase` and `toUpperCase` are modelled for ASCII letters only.
- ThingService.GetThingValueThreshold: requires a non-empty threshold list. With an empty list the code returns `undefined`, and `validateThingData` then throws on `threshold.name`.
- ThingService.Thing.UpdateStatusActive: a thing whose `devices` is `undefined` (the optional call `thing.devices?.map`) is not modelled; the device list is always a sequence. The same holds for ThingService.UpdateDevices and ThingService.Thing.UpdateAssociatedDevice, where `devices.findIndex` on an undefined list throws a TypeError that the model does not produce.
- The exception wrapping in the catch blocks (`BadRequestException(error)`): failures carry the inner message.
- Manager checks compare user ids directly. `checkValueExistInObjectArray` itself is modelled with the stringification as the parameter `toText`.
- ArrayUtils.CheckValueExistInObjectArray: `toText` is total, so the TypeError that `toString()` throws on a `null` property value, or on a `null` or `undefined` searched value, is not modelled. Only a missing property throws.
- StringUtils.Hex2Bin: `parseInt` on malformed input, and precision loss beyond 2^53, are not modelled. The input must be a non-empty numeral in `HEX_RADIX`.
- `randomString` is left out (crypto randomness), as are the unused `PARAMETER_WEIGHT` table, the dashboard stubs, AWS IoT and S3, MQTT, authentication, controllers, modules and the database-backed validators.
- Equality is structural throughout. `new Set(...)` and `includes` use SameValueZero, so two distinct objects with equal fields count as different, and `indexOf` is strict, so `indexOf(NaN)` is -1. The model identifies equal values and has no object identity and no NaN element.
- JsNumber.ToNumber: every object reads as NaN. `Number([])` is 0 and `Number([5])` is 5 in JavaScript; arrays are not distinguished from other objects here.
- The `console.log(args)` in `generateContent` is left out (console output).
- The stored notification of the `list` aggregation holds only its id and receivers; the other fields, the `$sort` on `sortBy` and the `$skip`/`$limit` of the facet are not modelled, and a page is the list of entries given.
- `ListNotificationDto` is not part of this model. Its fields besides `page` and `limit` are an opaque map.

## Findings

| source | as written | input that shows it | evidently intended | confidence | as-written member | corrected member |
|---|---|---|---|---|---|---|
| src/modules/parameter-standard/parameter-standard.constants.ts:18-19 | Multiplies and divides by 100, then divides by 100 again, so only the first hundredth of `[a, b]` is ever reached | v = 120 in [100, 500] with canonical range [150, 200] gives 150.025; v = 500 gives 150.5 | Fit range 1 onto range 2, as the comment at lines 4-10 says: 152.5 and 200 | medium, not executed | ParameterStandardConstants.RemapFallsShortOfRange | ParameterStandardConstants.RemapIntended |
| src/modules/notification/notification.service.ts:206-211 | `forEach` on the result of `validateThingData`, which is `undefined` for a thing without devices | a thing whose device list is empty | no evaluated parameters | high, not executed | NotificationService.ClassifyWithoutDevicesFails | NotificationService.ClassifyTypeAndTitleCorrected |
| src/shared/validations/is-smaller-than.validations.ts:18 | The comparison is or-ed with "either value is a number", so every numeric pair passes | value 5, related value 3: accepted | two numbers pass only when the value is smaller | high, not executed | IsSmallerThanValidation.ValidateAcceptsLarger | IsSmallerThanValidation.ValidateCorrected |
| src/shared/validations/is-bigger-than.validations.ts:18 | The comparison is or-ed with "either value is a number", so every numeric pair passes | value 3, related value 5: accepted | two numbers pass only when the value is bigger | high, not executed | IsBiggerThanValidation.ValidateAcceptsSmaller | IsBiggerThanValidation.ValidateCorrected |
| src/modules/notification/notification.service.ts:156 | `$set: { readAt: '$receivers.readAt' }` makes `readAt` the array of every receiver's `readAt`, so the `readAt === null` filter at line 178 never keeps an entry and `totalUnread` is always 0 | a fresh warning for a thing with one manager, whose receiver entry has `readAt` null, listed by that manager: `totalUnread` is 0 | `readAt` is the requesting user's own receiver entry, so an unread notification counts | medium, not executed | NotificationService.FreshNotificationNotCounted | NotificationService.FreshNotificationCountedCorrected |
