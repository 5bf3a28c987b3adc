# A verified model of a blog platform's core

The system is a blog platform. A React front end signs users in through Keycloak, lists and edits posts, and offers an administrator's user list. A Spring Boot back end stores posts, tags, comments and users, keeps its users in step with Keycloak, and guards its endpoints by realm role. A separate `blog` module maps blog entities to transfer objects.

This project models that core in Dafny and proves what it promises.

- **Front end, pure code.**
  - The string helpers (`Helpers`): truncate, slugify, first paragraph, initials, number grouping, password and e-mail checks.
  - The tag slugs the post editor sends (`TagSlugs`).
  - The badge and avatar rules (`Badge`, `Avatar`).
  - The response normalisers and request coercions of the API client (`Api`).
  - The role check (`Auth.HasRole`) and the route guard (`Routes`).
- **Front end, stateful code.** Each hook and page that updates state in place is a class with one field per state variable:
  - `UseForm.FormState`, `InfiniteScroll.Scroller` and `Modal.ModalState`;
  - `Auth.AuthState`, `PostForm.PostFormState` and `UserList.UserListState`;
  - `Api.ApiClient`, the axios instance's interceptor lists.
  
  An asynchronous handler is split into a method that starts it and one that settles it. Interleavings can then be written down as scenario methods, whose contracts state the outcome.
- **Back end.**
  - The post service with its tag resolution (`PostService`) and tag-name normalisation (`TagDto`).
  - The comment service with its reply trees (`CommentService`).
  - The user mapper and its Base64 image conversion (`UserMapper`, with `Base64` for `java.util.Base64` as section 4 of RFC 4648 defines it).
  - The shared user repository (`Users`).
  - The administrator's and the user's services (`AdminService`, `UserService`).
  - The security configuration: granted authorities and the ordered request rules (`Security`).
  - The blog mapper (`BlogMapper`).
- **Shared library.** `Js` holds the JavaScript runtime behaviour that the front-end code relies on: values and truthiness, `trim`, `split`, `includes`, `Number` and object spread. `Wrappers` holds `Option` and `Result`.

Calls to Keycloak, to the database and to the network are parameters: the identity provider's answer, whether the database accepts a row, and the server's response. The model states what each operation does for every such outcome.

## Model

| member | source | states |
|---|---|---|
| Js.Lower | frontend/src/utils/helpers.js:62 | same length, each ASCII capital lowered and every other character kept |
| Js.Upper | frontend/src/utils/helpers.js:132 | same length, each ASCII letter upper-cased and every other character kept |
| Js.Truthy | frontend/src/hooks/useAuth.jsx:109 | falsy exactly for `undefined`, `null`, `false`, 0, NaN and the empty string |
| Js.StrictEquals | frontend/src/pages/UserList.jsx:74 | NaN equals nothing; any other value equals exactly the same value |
| Js.TrimStart | frontend/src/utils/helpers.js:49-63 | a suffix of the text that does not start with a removable character, everything dropped before it being removable |
| Js.TrimEnd | frontend/src/utils/helpers.js:49-63 | a prefix of the text that does not end with a removable character, everything dropped after it being removable |
| Js.TrimProperties | frontend/src/utils/helpers.js:49-63 | a trimmed text neither starts nor ends with a removable character and is a run of the original with only removable characters around it |
| Js.JsTrim | frontend/src/utils/helpers.js:49-63 | never longer than the text; JsTrimEnds states what is removed |
| Js.JsTrimEnds | frontend/src/utils/helpers.js:49-63 | JavaScript's trim leaves no white space at either end and removes only white space from the ends |
| Js.JavaTrim | backend/src/main/java/com/blog/posts/dto/request/TagDTO.java:18 | never longer than the text; JavaTrimEnds states what is removed |
| Js.JavaTrimEnds | backend/src/main/java/com/blog/posts/dto/request/TagDTO.java:18 | Java's trim leaves no character up to U+0020 at either end and removes only such characters |
| Js.TrimOfTrimmed | frontend/src/pages/PostForm.jsx:247-252 | trimming text that neither starts nor ends with a removable character gives it back |
| Js.Split | frontend/src/utils/helpers.js:129 | at least one piece, none containing the separator |
| Js.SplitJoin | frontend/src/utils/helpers.js:129 | joining the pieces with the separator gives the text back |
| Js.JoinEnds | frontend/src/pages/UserList.jsx:25 | a join starts with the first part followed by the separator when there are more, and ends with the last part; no parts give "" |
| Js.ToNumber | frontend/src/pages/PostForm.jsx:131-151 | always a number or NaN; a number is kept; `null`, `false` and `[]` give 0 and `true` 1; `undefined` and objects give NaN; an array of two or more elements gives NaN; a trimmed text that is not an integer literal gives NaN, and an unsigned literal a non-negative number |
| Js.Get | frontend/src/hooks/useForm.js:26 | the property's value, or undefined for a missing key |
| Js.Spread | frontend/src/hooks/useModal.jsx:57-60 | the keys of both objects, the second's values winning and the first's kept elsewhere |
| Js.IncludesText | frontend/src/App.js:34 | false on undefined or null, as optional chaining gives; membership on an array; substring search on a string; a TypeError on anything else |
| Helpers.Truncate | frontend/src/utils/helpers.js:25-29 | the result is empty exactly for a missing or empty text; a text no longer than the limit comes back unchanged; a longer one becomes its first `maxLength` characters (none for a negative limit) followed by "..." |
| Helpers.CollapseRuns | frontend/src/utils/helpers.js:48 | replacing every run of separators by one mark leaves only the mark or non-separators, never two marks in a row, and no separator first after a run |
| Helpers.CollapseKeepsOthers | frontend/src/utils/helpers.js:48 | collapsing space runs loses none of the characters that are neither spaces nor the mark, in order |
| Helpers.CollapseOfCollapsed | frontend/src/utils/helpers.js:65 | a string already collapsed (single marks, no other separator) is left unchanged by collapsing again |
| Helpers.Slugify | frontend/src/utils/helpers.js:57-67 | the slug of any text is lower-case letters, digits and single inner dashes, with no dash at either end; a missing or empty text gives "" |
| Helpers.SlugCharsSurvive | frontend/src/utils/helpers.js:64-65 | after the filter of non-word characters and the collapse of separators only lower-case letters, digits and dashes remain |
| Helpers.DashTrimIsSlug | frontend/src/utils/helpers.js:66 | removing the leading and trailing dashes of such a string leaves a slug |
| Helpers.SlugOfSlug | frontend/src/utils/helpers.js:60-66 | a slug is its own slug |
| Helpers.SlugifyIdempotent | frontend/src/utils/helpers.js:60-66 | slugify(slugify(s)) == slugify(s) for every input |
| Helpers.FindFence | frontend/src/utils/helpers.js:40 | the first position at or after `from` where three backticks start, or none when there is no such position |
| Helpers.RemoveCodeBlocks | frontend/src/utils/helpers.js:40 | the text without its fenced code blocks, never longer; PlainPrefixKept, BlockRemoved, UnclosedFenceKept and NoBacktickUnchanged state what is removed and what is kept |
| Helpers.NoBacktickUnchanged | frontend/src/utils/helpers.js:40 | a text without a backtick has no code block to remove |
| Helpers.PlainPrefixKept | frontend/src/utils/helpers.js:40 | text before the first backtick is kept and the rest is processed on its own |
| Helpers.ClosingFence | frontend/src/utils/helpers.js:40 | the lazy match closes a block at the first fence after a backtick-free inner text |
| Helpers.BlockRemoved | frontend/src/utils/helpers.js:40 | a fenced block with backtick-free inner text is removed with its fences, the text around it kept |
| Helpers.UnclosedFenceKept | frontend/src/utils/helpers.js:40 | a fence never closed is kept |
| Helpers.FirstParagraph | frontend/src/utils/helpers.js:43 | the first paragraph is a prefix of the text with no blank line in it, and is the whole text or is followed by a blank line |
| Helpers.CleanParagraph | frontend/src/utils/helpers.js:46-49 | the cleaned paragraph has no Markdown mark and no whitespace other than single inner blanks |
| Helpers.ExtractFirstParagraph | frontend/src/utils/helpers.js:36-50 | the result has none of #*_`[], no leading or trailing space and no double spaces; a missing or empty text gives "" |
| Helpers.ParagraphKeepsWords | frontend/src/utils/helpers.js:46-49 | cleaning removes only whitespace and Markdown marks: the other characters of the paragraph survive in order |
| Helpers.EmailTestMatchesRegex | frontend/src/utils/helpers.js:93-94 | the position-based test agrees with the regular expression in both directions |
| Helpers.IsValidEmail | frontend/src/utils/helpers.js:92-95 | true exactly when the lower-cased text (`"null"` for null) matches the e-mail pattern; null is never valid |
| Helpers.ValidEmailShape | frontend/src/utils/helpers.js:92-95 | an accepted address has no whitespace, exactly one '@', and a '.' somewhere after it |
| Helpers.AnyChar | frontend/src/utils/helpers.js:104-107 | a character-class test holds exactly when some character of the text is in the class |
| Helpers.ValidatePassword | frontend/src/utils/helpers.js:102-117 | each flag holds exactly when the password has a character of its class, and the length flag exactly when it has at least 8 characters |
| Helpers.PasswordValidIff | frontend/src/utils/helpers.js:111 | isValid holds exactly when all four class flags hold and the password has at least 8 characters |
| Helpers.WordStarts | frontend/src/utils/helpers.js:128-130 | the characters that begin a space-separated word, none of them a blank |
| Helpers.GetInitials | frontend/src/utils/helpers.js:125-134 | at most two characters, none lower-case; a missing or empty name gives "" |
| Helpers.FirstCharsOfSplit | frontend/src/utils/helpers.js:129-131 | the first characters of the parts of `split(' ')` are exactly the word starts of the name |
| Helpers.InitialsAreWordStarts | frontend/src/utils/helpers.js:128-133 | the initials are the first two word starts of the name, upper-cased |
| Helpers.DigitsOf | frontend/src/utils/helpers.js:157 | the decimal digits of a natural number, with no leading zero |
| Helpers.DigitsValue | frontend/src/utils/helpers.js:157 | the digits denote the number again |
| Helpers.IntToStringIsLiteral | frontend/src/utils/helpers.js:157 | the text of an integer is an integer literal with a minus sign exactly for negatives, then the digits |
| Helpers.DecimalValueOfDigits | frontend/src/pages/PostForm.jsx:131 | reading digits as `Number` does gives the number they denote |
| Helpers.IntToStringTrimmed | frontend/src/pages/PostForm.jsx:131 | the text of an integer has no space to trim |
| Helpers.NumberOfIntToString | frontend/src/pages/PostForm.jsx:131 | `Number(String(n))` is n for every integer |
| Helpers.IntToString | frontend/src/utils/helpers.js:157 | a minus sign exactly for a negative number, then at least one digit and only digits, with no leading zero unless the number is 0 |
| Helpers.GroupThousands | frontend/src/utils/helpers.js:157 | a comma goes exactly before each group of three digits counted from the right, never first; all other characters are the digits |
| Helpers.UngroupThousands | frontend/src/utils/helpers.js:157 | removing the commas from the grouped digits gives the digits back |
| Helpers.FormatNumber | frontend/src/utils/helpers.js:155-158 | null or undefined gives "0" |
| Helpers.FormatNumberUngroups | frontend/src/utils/helpers.js:155-158 | removing the commas from formatNumber(n) gives back n.toString() |
| TagSlugs.TagSlug | frontend/src/pages/PostForm.jsx:381 | the slug the tag mapping evidently intends: only word characters and dashes |
| TagSlugs.TagSlugKeepsWords | frontend/src/pages/PostForm.jsx:381 | the intended slug keeps every word character of the lower-cased tag, in order |
| TagSlugs.TagSlugOfWords | frontend/src/pages/PostForm.jsx:381 | two lower-case words separated by one space give the words joined by one dash |
| TagSlugs.TagSlugOfTwoWords | frontend/src/pages/PostForm.jsx:381 | the intended slug of "hello world" is "hello-world" |
| TagSlugs.AsWrittenTagSlug | frontend/src/pages/PostForm.jsx:381 | the slug as written, with the doubled backslashes: only backslashes, letters `w` and dashes survive |
| TagSlugs.DropLeadingS | frontend/src/pages/PostForm.jsx:381 | drops exactly the leading run of `s`: what remains is a suffix that does not start with `s` |
| TagSlugs.ReplaceBackslashRuns | frontend/src/pages/PostForm.jsx:381 | never longer, empty exactly for the empty text, built only from dashes and the text's characters, and never holds a backslash followed by `s` |
| TagSlugs.AsWrittenTagSlugOfWords | frontend/src/pages/PostForm.jsx:381 | as written, two lower-case words lose their space and keep only their letters `w` |
| TagSlugs.AsWrittenTagSlugOfTwoWords | frontend/src/pages/PostForm.jsx:381 | as written, the slug of "hello world" is "w" |
| TagSlugs.NoBackslashUnchanged | frontend/src/pages/PostForm.jsx:381 | the written first pattern changes no text without a backslash |
| PostForm.RemoveAll | frontend/src/pages/PostForm.jsx:262 | the filtered list never holds the removed tag and is no longer than the list |
| PostForm.RemoveAllMembers | frontend/src/pages/PostForm.jsx:262 | the remaining tags are exactly the tags different from the removed one |
| PostForm.RemoveAllAppend | frontend/src/pages/PostForm.jsx:262 | removing distributes over concatenation, so the kept tags keep their order |
| PostForm.RemoveAbsent | frontend/src/pages/PostForm.jsx:262 | removing a tag that is not there changes nothing |
| PostForm.RemoveAllNoDup | frontend/src/pages/PostForm.jsx:262 | removing keeps a list without duplicates without duplicates |
| PostForm.AddThenRemove | frontend/src/pages/PostForm.jsx:249-262 | adding a new tag and removing it again gives the list back |
| PostForm.FindById | frontend/src/pages/PostForm.jsx:134 | the first available option whose value is numerically the id, or none exactly when no option has it |
| PostForm.FindByLabel | frontend/src/pages/PostForm.jsx:141 | the first available option labelled with the name, or none exactly when no option has that label |
| PostForm.CategoryIdOf | frontend/src/pages/PostForm.jsx:128-158 | an object gives its truthy positive numeric id, a name the value of the option labelled with it, a positive number itself; every other element, and a failed lookup or check, gives nothing |
| PostForm.CategoryIdOfPositive | frontend/src/pages/PostForm.jsx:129-158 | an id read back from a post's category is positive when every available option's value is |
| PostForm.LookedUpOption | frontend/src/pages/PostForm.jsx:128-158 | the option the loop looks up for one category element is an available one whose number is the id that element stands for, and one is found whenever an available option has that number |
| PostForm.LoadPostCategories | frontend/src/pages/PostForm.jsx:124-161 | the loop over the post's categories throws exactly on a `null` element; a non-array gives no ids and no options; otherwise the ids and options are what its callback gathers over the elements in order (PostForm.GatheredIds, PostForm.GatheredOptions) |
| PostForm.AddStepFacts | frontend/src/pages/PostForm.jsx:128-158 | one call of the callback appends at most the element's id and at most the option looked up for it, and the element's id is listed afterwards; a name or a number adds no duplicate id; an option of the element's number is gathered afterwards whenever one is available |
| PostForm.GatheredIds | frontend/src/pages/PostForm.jsx:124-161 | the gathered ids are exactly those the elements stand for, and names and numbers gather no duplicate |
| PostForm.GatheredOptions | frontend/src/pages/PostForm.jsx:124-161 | every selected option is available and is the one looked up for some element (by id for an object or a number, by label for a name); for every element whose option is found, an option of that number is selected |
| PostForm.GatheredDistinct | frontend/src/pages/PostForm.jsx:124-161 | when no two available options carry the same number, the option found for every element is itself selected |
| PostForm.LoadedIdsPositive | frontend/src/pages/PostForm.jsx:124-161 | every loaded id is positive when the available options' values are |
| PostForm.ValidCategories | frontend/src/pages/PostForm.jsx:224-232 | the kept options converted, each with a numeric (or NaN) value and a truthy label; ValidCategoriesKeepInOrder states one result per kept option, in order |
| PostForm.OptionOf | frontend/src/pages/PostForm.jsx:226-231 | a kept option becomes its value as a number (or NaN) and a truthy label, its own or "Category <value>" |
| PostForm.CountKept | frontend/src/pages/PostForm.jsx:225 | the number of kept options is at most the number selected |
| PostForm.ValidCategoriesLength | frontend/src/pages/PostForm.jsx:224-232 | one result per kept option |
| PostForm.KeptOptionAt | frontend/src/pages/PostForm.jsx:224-232 | a kept option after n earlier kept ones becomes the n-th result |
| PostForm.FromKeptOfTail | frontend/src/pages/PostForm.jsx:224-232 | a conversion of a kept option of the tail is one of the whole selection |
| PostForm.ResultFromKept | frontend/src/pages/PostForm.jsx:224-232 | every result is the conversion of a kept option |
| PostForm.ValidCategoriesKeepInOrder | frontend/src/pages/PostForm.jsx:224-232 | one result per kept option, each kept option converted at its place in order, and nothing else |
| PostForm.SelectedIdsArePositiveValues | frontend/src/pages/PostForm.jsx:224-242 | the stored ids are exactly the positive numeric values of the kept options |
| PostForm.PositiveIds | frontend/src/pages/PostForm.jsx:242 | the stored ids are exactly the positive values of the kept options |
| PostForm.CheckImage | frontend/src/pages/PostForm.jsx:266-284 | a file is read exactly when its type starts with "image/" and it has at most 500 * 1024 bytes; otherwise the matching error text; no file does nothing |
| PostForm.NameToId | frontend/src/pages/PostForm.jsx:340-345 | every mapped id is truthy; NameToIdLastWins states exactly which names are recorded and which id each gets |
| PostForm.KeyOf | frontend/src/pages/PostForm.jsx:351 | a string keys by itself, a number by a text that reads back as that number; only arrays have no modelled key text |
| PostForm.NameToIdEntry | frontend/src/pages/PostForm.jsx:340-345 | a recorded name maps to the id of the last category with that name |
| PostForm.NamedCategoryRecorded | frontend/src/pages/PostForm.jsx:340-345 | every category with a truthy id and name is recorded under its name |
| PostForm.NameToIdLastWins | frontend/src/pages/PostForm.jsx:340-345 | exactly the named categories are recorded, each name with the id of the last category of that name |
| PostForm.GetCategoryId | frontend/src/pages/PostForm.jsx:348-353 | a number is kept, an object gives its truthy id as a number, a known name its id, anything else `null`; `null` itself throws |
| PostForm.LookUpName | frontend/src/pages/PostForm.jsx:351-352 | a known name's id, and `null` for anything else; never throws |
| PostForm.CategoryIds | frontend/src/pages/PostForm.jsx:367-369 | the mapping throws exactly when a category is `null`; otherwise no more ids than categories and none `null`; CategoryIdsInOrder states one id per category with a non-null id, in order |
| PostForm.CountIds | frontend/src/pages/PostForm.jsx:367-369 | the number of categories with a non-null id is at most the number of categories |
| PostForm.CategoryIdsLength | frontend/src/pages/PostForm.jsx:367-369 | without a `null` category there are as many ids as categories with a non-null id |
| PostForm.CategoryIdAt | frontend/src/pages/PostForm.jsx:367-369 | the non-null id of a category after n earlier non-null ids is the n-th submitted id |
| PostForm.SubmittedIdFromCategory | frontend/src/pages/PostForm.jsx:367-369 | every submitted id is the id of one of the categories |
| PostForm.CategoryIdsInOrder | frontend/src/pages/PostForm.jsx:367-369 | without a `null` category the submitted ids are the non-null ids of the categories, one each, in order, and nothing else |
| PostForm.CategoriesToSubmit | frontend/src/pages/PostForm.jsx:364-378 | the form's category ids when it has any; else in edit mode the original post's category ids, a non-array value throwing; else none |
| PostForm.EditKeepsOriginalCategories | frontend/src/pages/PostForm.jsx:372-376 | editing without choosing categories submits the post's own positive category ids again |
| PostForm.PositiveIdsSubmitted | frontend/src/pages/PostForm.jsx:364-370 | positive ids, as the selector stores them, are submitted unchanged |
| PostForm.SelectedCategoriesSubmitted | frontend/src/pages/PostForm.jsx:220-244 | the ids chosen in the selector reach the submitted body unchanged |
| PostForm.TagPayload | frontend/src/pages/PostForm.jsx:379-383 | a string tag becomes exactly its name, the slug the two replacements give as written, and an empty description; a non-string tag throws |
| PostForm.TagPayloadIntended | frontend/src/pages/PostForm.jsx:379-383 | the same payload with the intended slug: only word characters and dashes |
| PostForm.HelloWorldTagPayloads | frontend/src/pages/PostForm.jsx:381 | the tag "hello world" is sent with slug "w", the intended payload has "hello-world", and the two differ |
| PostForm.TagPayloads | frontend/src/pages/PostForm.jsx:379-383 | the payloads of the tags, element by element, and a failure exactly when some tag is not a string |
| PostForm.PostData | frontend/src/pages/PostForm.jsx:356-384 | the body has exactly the eight properties: the form's title, slug, excerpt, content and published flag, the tag payloads, the submitted categories and the featured image or else the image URL; it fails exactly when the categories or the tags fail |
| PostForm.MayEdit | frontend/src/pages/PostForm.jsx:118 | the author may edit; with a roles array an administrator may too; a missing user throws |
| PostForm.PostFormState.constructor | frontend/src/pages/PostForm.jsx:19-45 | the initial form and page state |
| PostForm.PostFormState.SetTagInput | frontend/src/pages/PostForm.jsx:40 | only the tag input changes |
| PostForm.PostFormState.HandleTagKeyDown | frontend/src/pages/PostForm.jsx:246-257 | Enter with a non-blank input appends the trimmed input unless present and clears the input; a list without duplicates keeps none |
| PostForm.PostFormState.RemoveTag | frontend/src/pages/PostForm.jsx:259-264 | the tags become the filtered list, without the removed tag, keeping no duplicates |
| PostForm.PostFormState.HandleCategoryChange | frontend/src/pages/PostForm.jsx:220-244 | the shown options are the valid ones, the form's categories their positive ids, and an id is stored exactly when it is the positive numeric value of a kept option; nothing else changes |
| PostForm.PostFormState.HandleImageChange | frontend/src/pages/PostForm.jsx:266-285 | the file is read exactly when accepted; a rejection sets its message; the form is unchanged |
| PostForm.PostFormState.ImageRead | frontend/src/pages/PostForm.jsx:292-301 | the data URL becomes the preview and the featured image, loading stops and the error clears |
| PostForm.PostFormState.SubmitStart | frontend/src/pages/PostForm.jsx:312-329 | a blank title or content sets "Title and content are required"; otherwise an anonymous user is sent to log in; otherwise submitting starts with no error |
| PostForm.PostFormState.SubmitSettle | frontend/src/pages/PostForm.jsx:388-406 | success navigates to /posts; failure shows the server's message or the fixed text and a 401 asks for a login; submitting ends |
| PostForm.PostFormState.LoadPostSettle | frontend/src/pages/PostForm.jsx:114-200 | a user who may not edit goes to /unauthorized; a missing user or a `null` category or tag shows the load error; on both paths the form, the selected options and the preview are kept; otherwise the form becomes the post's fields with the ids the post's categories stand for, the selected options are the ones looked up for them, and the preview becomes the post's image when it has one and is kept otherwise; loading ends |
| PostForm.LoadFails | frontend/src/pages/PostForm.jsx:127-185 | the load throws exactly when the categories are an array holding `null` or the tag names cannot be read (TagNames fails) |
| PostForm.TextOr | frontend/src/pages/PostForm.jsx:174-177 | `v || fallback` for a text: a non-empty string is kept; any falsy or non-string value gives the fallback |
| PostForm.LoadedForm | frontend/src/pages/PostForm.jsx:173-185 | the post's text fields or "", each image falling back on the other, published unless it says otherwise, the loaded ids, and the tags' names (a text tag itself, an object tag's `name`), one per tag |
| PostForm.TagNames | frontend/src/pages/PostForm.jsx:182-184 | one name per tag: strings as they are, objects their `name`; it throws exactly when a tag is `null` |
| Api.StripApiSuffix | frontend/src/services/api.js:5 | an address ending in "/api" in any letter case loses exactly those four characters; any other address is kept |
| Api.DefaultApiUrl | frontend/src/services/api.js:4-5 | with no configured address the client talks to http://localhost:9001 |
| Api.ApiUrl | frontend/src/services/api.js:4-5 | the configured address, or http://localhost:9001 when it is unset or empty; a configured address ending in "/api" in any case loses exactly those four characters, any other is kept |
| Api.StripRemovesOnlyOne | frontend/src/services/api.js:5 | only the last "/api" is removed |
| Api.StripKeepsOtherAddresses | frontend/src/services/api.js:5 | an address without the suffix is used as it is, and stripping it again changes nothing |
| Api.Field | frontend/src/services/api.js:44-54 | reading a property throws exactly on `null` and `undefined`, and gives an object's property |
| Api.Or | frontend/src/services/api.js:49-54 | `a \|\| b` is `a` when truthy and `b` otherwise |
| Api.ArrayOrEmpty | frontend/src/services/api.js:40 | always an array, and the value itself when it is one |
| Api.CopyFields | frontend/src/services/api.js:43-55 | exactly the named properties, each with the object's value |
| Api.AuthorUsername | frontend/src/services/api.js:49 | the author's name when truthy; otherwise the author object's username, `null` without an author, and `undefined` when the author is a truthy non-object |
| Api.NormalizePost | frontend/src/services/api.js:43-78 | a post normalises exactly when it is neither `null` nor `undefined`; the result has exactly the named and the defaulted properties, truthy status, categories and tags with their defaults, the update time falling back on the creation time, and the copied properties unchanged |
| Api.NormalizeAll | frontend/src/services/api.js:43 | the mapping succeeds exactly when every element normalises, and then gives one normalised post per element, in order |
| Api.WithData | frontend/src/services/api.js:41-42 | the answer's properties with only `data` replaced |
| Api.GetAllPosts | frontend/src/services/api.js:37-57 | an answer whose data is not an array gives an empty list; otherwise it throws exactly when a post is `null` or `undefined`, and else gives each post normalised, element by element; the other properties of the answer are kept |
| Api.ListedPostNormalises | frontend/src/services/api.js:43-55 | every listed post that is an object normalises and has every post property |
| Api.GetPostById | frontend/src/services/api.js:60-80 | throws exactly when the answer has no data, and otherwise replaces the data by the normalised post |
| Api.NormalizeTwiceCopied | frontend/src/services/api.js:43-55 | a copied property keeps its value when a normalised post is normalised again |
| Api.NormalizeTwiceDefaulted | frontend/src/services/api.js:49-54 | a defaulted property other than the author keeps its value when a normalised post is normalised again |
| Api.NormalizeTwice | frontend/src/services/api.js:43-78 | normalising a normalised post keeps its properties and every value except the author's name, which stays when truthy and otherwise becomes `null` |
| Api.PostFieldListsNormaliseTwice | frontend/src/services/api.js:43-78 | both lists of copied properties carry the creation time, not the author, and no defaulted property |
| Api.NormalizeCategory | frontend/src/services/api.js:114-118 | a category normalises exactly when it is neither `null` nor `undefined`, to its id, its name and a description that is never missing |
| Api.GetCategories | frontend/src/services/api.js:108-120 | an answer whose data is not an array gives an empty list; otherwise it throws exactly when a category is `null` or `undefined`, and else gives each category normalised to id, name and description, element by element; the other properties are kept |
| Api.CoercePostData | frontend/src/services/api.js:83-102 | every property of the data kept, with categories and tags that are arrays, kept when they were; `null` or `undefined` data throws |
| Api.CoerceIdempotent | frontend/src/services/api.js:83-102 | coercing coerced data changes nothing |
| Api.AddCommentBody | frontend/src/services/api.js:128-132 | the post id, the content as `comment`, and the data's `edited` when it is truthy, `false` otherwise; missing data throws |
| Api.AddReplyBody | frontend/src/services/api.js:134-140 | the post and parent ids, the content as `comment`, and `edited` false |
| Api.ReplyMatchesComment | frontend/src/services/api.js:128-140 | a reply carries its content the same way as a fresh comment |
| Api.AttachToken | frontend/src/services/api.js:184-189 | a non-empty token sets `Authorization: Bearer <token>`; otherwise the headers are unchanged |
| Api.AttachTokenIdempotent | frontend/src/services/api.js:184-189 | attaching the token twice is attaching it once |
| Api.ErrorMessage | frontend/src/services/api.js:197 | always truthy: the server's message when it is truthy, else the fixed text |
| Api.ErrorWithoutMessage | frontend/src/services/api.js:197 | an error without a response message reports "An error occurred" |
| Api.Notifications | frontend/src/services/api.js:194-201 | one notification per active handler holding a callback, carrying that callback and the error's message, and no other; NotificationsOfSlot and NotificationsConcat make the order the slot order |
| Api.NotificationsOfSlot | frontend/src/services/api.js:197-199 | a slot sends one notification exactly when it holds a callback |
| Api.NotificationsConcat | frontend/src/services/api.js:194-201 | the notifications of two runs of slots are those of the first followed by those of the second |
| Api.ActiveCount | frontend/src/services/api.js:180-206 | the number of registered handlers, never more than the slots |
| Api.ActiveCountAppend | frontend/src/services/api.js:183-194 | registering a handler adds one active handler |
| Api.ApiClient.constructor | frontend/src/services/api.js:8-13 | no interceptor registered |
| Api.ApiClient.EjectRequest | frontend/src/services/api.js:180-205 | `eject(id)` empties the slot of a registered id; without an id nothing changes |
| Api.ApiClient.EjectResponse | frontend/src/services/api.js:206 | the same for response interceptors |
| Api.ApiClient.SetupInterceptors | frontend/src/services/api.js:178-202 | as written, the ejection removes nothing and one more request and one more response interceptor are active |
| Api.ApiClient.Cleanup | frontend/src/services/api.js:204-207 | as written, the cleanup removes nothing |
| Api.ApiClient.SetupInterceptorsOnce | frontend/src/services/api.js:178-207 | corrected: the given pair is removed, the new pair is registered at the returned ids |
| Api.ApiClient.CleanupOnce | frontend/src/services/api.js:204-207 | corrected: the pair the setup added is removed |
| Api.RunRequestSameToken | frontend/src/services/api.js:183-191 | when every session holds the same token, any number of active request interceptors set the header a single one sets |
| Api.RunRequestNone | frontend/src/services/api.js:183-191 | with no active request interceptor the headers leave unchanged |
| Api.RunRequest | frontend/src/services/api.js:183-191 | the interceptors only add an Authorization header, keep every other header, and a changed Authorization is "Bearer " followed by the token of one registered session |
| Api.TwoPagesNotifyTwice | frontend/src/services/api.js:178-207 | as written, setup, cleanup and setup again notify twice for one failed request: through the first page's stale callback and through the second's |
| Api.TwoPagesNotifyOnce | frontend/src/services/api.js:178-207 | corrected, the same sequence notifies once, with the error's message |
| Avatar.LastIndexWhere | frontend/src/components/common/Avatar.js:35 | the last position whose character is a space, or -1 when none is |
| Avatar.CharAt0 | frontend/src/components/common/Avatar.js:36-38 | `charAt(0)`: the first character, or "" for an empty word |
| Avatar.Words | frontend/src/components/common/Avatar.js:35 | `split` always gives at least one part |
| Avatar.WordInitials | frontend/src/components/common/Avatar.js:36-38 | at most two characters, none lower-case |
| Avatar.AvatarInitials | frontend/src/components/common/Avatar.js:32-39 | `null` exactly for a missing or empty name; otherwise at most two characters, none lower-case |
| Avatar.InitialsOfBlankName | frontend/src/components/common/Avatar.js:33-36 | a name of blanks only gives empty initials |
| Avatar.OneWordInitials | frontend/src/components/common/Avatar.js:35-36 | a trimmed text without spaces gives its first character, upper-cased |
| Avatar.FirstLastInitials | frontend/src/components/common/Avatar.js:38 | several words give the first characters of the first and the last word, upper-cased |
| Avatar.SeveralWordsInitials | frontend/src/components/common/Avatar.js:35-38 | a trimmed text with a space gives its first character and the one after its last space |
| Avatar.InitialsOfOneWord | frontend/src/components/common/Avatar.js:32-36 | a name of one word gives the first character of its trimmed text, upper-cased |
| Avatar.InitialsOfSeveralWords | frontend/src/components/common/Avatar.js:32-38 | a name of several words gives the first character of its trimmed text and the one after its last space, upper-cased |
| Avatar.RenderContent | frontend/src/components/common/Avatar.js:47-65 | the image while the source is non-empty and has not failed; else the initials of a non-empty name; else the icon |
| Avatar.AvatarsToShow | frontend/src/components/common/Avatar.js:133 | a prefix of the avatars: all of them for a missing or zero limit, at most the limit for a positive one, all but the last `-limit` for a negative one |
| Avatar.RenderGroup | frontend/src/components/common/Avatar.js:130-167 | the shown and the remaining avatars add up to all of them, and an extra avatar named "+N" appears exactly when N > 0 are hidden |
| Avatar.MoreAvatarShowsOnlyPlus | frontend/src/components/common/Avatar.js:153-164 | as written, the extra avatar named "+N" shows only "+" |
| Avatar.MoreAvatarLabel | frontend/src/components/common/Avatar.js:157 | the label "+" followed by digits that read back as the number of hidden avatars |
| Avatar.CorrectedMoreContent | frontend/src/components/common/Avatar.js:153-164 | corrected: the extra avatar's text is the label, whose digits read back as the hidden count |
| Avatar.CorrectedGroupShowsCount | frontend/src/components/common/Avatar.js:130-167 | the corrected extra avatar shows the name the group gives it, unlike the avatar as written |
| Badge.DisplayCount | frontend/src/components/common/Badge.jsx:32 | a count above the overflow limit shows "<limit>+", any other count itself |
| Badge.RenderContent | frontend/src/components/common/Badge.jsx:22-37 | a dot shows nothing; without a count the children; a hidden zero nothing; otherwise the display count |
| Badge.RenderBadge | frontend/src/components/common/Badge.jsx:57-70 | nothing is rendered exactly for a zero count that is not to be shown and no dot; otherwise a span with the content |
| Badge.ShownNumberBounded | frontend/src/components/common/Badge.jsx:22-70 | a number shown in a badge whose children are not a number is its count, and never above the overflow limit |
| Badge.RenderCount | frontend/src/components/common/Badge.jsx:118-150 | a hidden zero gives the children or `null`; otherwise a wrapper holding the children and a badge |
| Badge.CountBadgeShowsCount | frontend/src/components/common/Badge.jsx:132-147 | the badge inside the wrapper is always rendered and shows the display form of the count |
| Modal.ModalState.constructor | frontend/src/hooks/useModal.jsx:8-10 | open as asked, no data, the body's scrolling untouched |
| Modal.ModalState.OpenModal | frontend/src/hooks/useModal.jsx:16-21 | the modal opens with the given data (`null` by default) and the body stops scrolling |
| Modal.ModalState.CloseModal | frontend/src/hooks/useModal.jsx:27-39 | the modal closes at once and the body scrolls again; the data stays, and a clearing timer starts only when `clearData` is set |
| Modal.ModalState.ClearTimerFires | frontend/src/hooks/useModal.jsx:35-37 | the pending timer clears the data whatever happened since, and changes nothing else |
| Modal.ModalState.ToggleModal | frontend/src/hooks/useModal.jsx:44-50 | the open state flips and the body's scrolling follows the new state |
| Modal.ModalState.UpdateModalData | frontend/src/hooks/useModal.jsx:56-61 | the new properties are merged over the current data, `null` counting as no properties |
| Modal.ReopenBeforeTimerFires | frontend/src/hooks/useModal.jsx:16-39 | a modal closed and opened again before the timer fires is left open with no data |
| Modal.CloseKeepingData | frontend/src/hooks/useModal.jsx:16-61 | data merged into an open modal survives `closeModal(false)`: the update's properties and the old ones it does not name |
| Modal.ToggleTwice | frontend/src/hooks/useModal.jsx:44-50 | toggling twice restores the open state, and the body is locked exactly when the modal is open |
| InfiniteScroll.ErrorMessage | frontend/src/hooks/useInfiniteScroll.js:45 | never empty: the error's own message when it has one, else "Failed to load more items" |
| InfiniteScroll.Scroller.constructor | frontend/src/hooks/useInfiniteScroll.js:17-21 | page 1, not loading, no error |
| InfiniteScroll.Scroller.Reset | frontend/src/hooks/useInfiniteScroll.js:24-29 | back to page 1, not loading, no error |
| InfiniteScroll.Scroller.LoadMoreStart | frontend/src/hooks/useInfiniteScroll.js:32-41 | the current page is requested exactly when no load is in flight and there is more; then the guard is raised and the error cleared; otherwise nothing changes |
| InfiniteScroll.Scroller.LoadMoreSettle | frontend/src/hooks/useInfiniteScroll.js:41-49 | a fetched page advances the counter by one, a failure keeps it and records its message; loading ends either way |
| InfiniteScroll.OverlappingLoads | frontend/src/hooks/useInfiniteScroll.js:32-50 | a second call while the first is in flight requests nothing, and the page advances once |
| InfiniteScroll.RetryAfterFailure | frontend/src/hooks/useInfiniteScroll.js:32-50 | a failure keeps the page, so the next call asks for the same page and clears the error |
| UseForm.FormState.constructor | frontend/src/hooks/useForm.js:10-14 | the initial values, no errors, nothing touched, not submitting |
| UseForm.FormState.HandleChange | frontend/src/hooks/useForm.js:17-32 | the field takes the checkbox's `checked` or the input's `value`; a shown error for it becomes `null`; nothing else changes |
| UseForm.FormState.HandleBlur | frontend/src/hooks/useForm.js:35-51 | the field becomes touched and, with a validator, takes the validator's error for it |
| UseForm.FormState.SetFieldValue | frontend/src/hooks/useForm.js:54-59 | only the field's value changes |
| UseForm.FormState.SetFieldError | frontend/src/hooks/useForm.js:62-67 | only the field's error changes |
| UseForm.FormState.SetFieldTouched | frontend/src/hooks/useForm.js:70-75 | only the field's touched flag changes |
| UseForm.FormState.ValidateForm | frontend/src/hooks/useForm.js:78-86 | without a validator valid and unchanged; otherwise the errors are the validator's, and valid exactly when there are none |
| UseForm.FormState.ResetForm | frontend/src/hooks/useForm.js:89-94 | the initial values, no errors, nothing touched, not submitting |
| UseForm.FormState.SubmitStart | frontend/src/hooks/useForm.js:97-117 | a valid form starts submitting and hands on its values; an invalid one marks every field that has a value as touched |
| UseForm.FormState.SubmitSettle | frontend/src/hooks/useForm.js:105-109 | submitting ends whatever the submit did, and a rejection is passed on |
| UseForm.FormState.HasError | frontend/src/hooks/useForm.js:129-131 | true exactly when the error `getError` gives is truthy |
| UseForm.FormState.GetError | frontend/src/hooks/useForm.js:134-136 | the field's error once touched, "" before |
| UseForm.FormState.FieldValue | frontend/src/hooks/useForm.js:121-126 | never `null` or `undefined`: the value when it is set, "" otherwise |
| UseForm.FormState.IsPristine | frontend/src/hooks/useForm.js:171-172 | pristine exactly when not dirty |
| UseForm.FormState.IsDirty | frontend/src/hooks/useForm.js:171 | dirty exactly when a field was added or removed or a field holds another value than at the start |
| UseForm.AllTouched | frontend/src/hooks/useForm.js:112-115 | every field that has a value, marked touched |
| UseForm.EditThenReset | frontend/src/hooks/useForm.js:17-94 | an edit makes the form dirty exactly when it changes the field's value; a reset makes it pristine |
| UseForm.SubmitInvalidForm | frontend/src/hooks/useForm.js:97-131 | a refused submit calls nothing and shows a field's error exactly when the field has a value |
| Auth.SomeRoleIncluded | frontend/src/hooks/useAuth.jsx:101 | none of no roles; otherwise it throws exactly when the first lookup throws, and is true exactly when some required role is included |
| Auth.HasRole | frontend/src/hooks/useAuth.jsx:97-105 | false with no user, falsy roles or an empty array of required roles; with an array of roles, membership of the role or of one of the roles; it throws exactly when the roles are truthy but neither an array nor a string |
| Auth.AuthState.constructor | frontend/src/hooks/useAuth.jsx:3-12 | the imported API binding is missing, as written; no user, loading, and the stored token unless it is empty |
| Auth.AuthState.WithApi | frontend/src/hooks/useAuth.jsx:10-12 | the corrected hook, whose API binding exists; no user, loading, and the stored token unless it is empty |
| Auth.AuthState.IsAuthenticated | frontend/src/hooks/useAuth.jsx:109 | `!!currentUser`: signed in exactly when a user object is present |
| Auth.AuthState.LoadUserStart | frontend/src/hooks/useAuth.jsx:16-28 | the user is requested exactly when a token is set and the API binding exists; with a token but no binding the call throws into the catch, which removes the token from storage and state and ends loading; without a token loading ends and nothing else changes |
| Auth.AuthState.LoadUserSettle | frontend/src/hooks/useAuth.jsx:28-37 | a loaded user is signed in; a failure removes the token from storage and from the state; loading ends |
| Auth.AuthState.Login | frontend/src/hooks/useAuth.jsx:44-61 | without the API binding, or with a failed answer, the call throws and nothing changes; otherwise the answer's token is stored and its user signed in and returned |
| Auth.AuthState.Register | frontend/src/hooks/useAuth.jsx:64-72 | without the API binding the call throws; otherwise the answer's data, or the rethrown failure |
| Auth.AuthState.Logout | frontend/src/hooks/useAuth.jsx:75-86 | the token leaves storage and the state and nobody is signed in; without the API binding the call then throws, before the API header is cleared and before the login page is shown; with it both happen |
| Auth.AuthState.UpdateUser | frontend/src/hooks/useAuth.jsx:89-94 | the given fields merged over the current user's, the fields alone when nobody is signed in |
| Auth.MountWithStoredToken | frontend/src/hooks/useAuth.jsx:3-41 | as written: the user is never fetched and nobody is signed in; a stored token is thrown away by the catch |
| Auth.MountWithApi | frontend/src/hooks/useAuth.jsx:10-41 | corrected: the user is fetched exactly when a token is stored; a failed fetch leaves nobody signed in and no token stored, a loaded user is signed in and the token kept |
| Auth.LoginThenLogout | frontend/src/hooks/useAuth.jsx:3-86 | as written: the login throws, so nobody is ever signed in; the logout clears the token and throws before navigating |
| Auth.LoginThenLogoutWithApi | frontend/src/hooks/useAuth.jsx:44-86 | corrected: after a login the user is signed in; after the logout nobody is, no token is stored and the login page is shown |
| Routes.PrivateRoute | frontend/src/App.js:17-39 | a spinner while loading, the login page without a user, the page itself when no role is asked for; the page is never shown while loading or without a user |
| Routes.GuardWithRoleArray | frontend/src/App.js:34-38 | with an array of roles the page shows exactly when the user holds one of the roles asked for, and the not-authorized page otherwise |
| Routes.GuardAgreesWithHasRole | frontend/src/App.js:34-38 | for truthy or missing roles the guard decides as `hasRole` does, throwing where it throws |
| Routes.NoRolesNotAuthorized | frontend/src/App.js:34-35 | a user without roles is sent to the not-authorized page |
| Routes.PostEditorGuard | frontend/src/App.js:63-78 | the new-post and edit-post pages admit exactly the users holding ROLE_AUTHOR or ROLE_ADMIN |
| UserList.Flipped | frontend/src/pages/UserList.jsx:74 | the row with its enabled flag negated and every other property kept |
| UserList.FlipRows | frontend/src/pages/UserList.jsx:74 | as many rows; the rows whose id is the toggled one flipped, the others unchanged |
| UserList.ReplaceRows | frontend/src/pages/UserList.jsx:66 | as many rows; the rows whose id is the saved user's replaced by the user, the others unchanged |
| UserList.FlipRowsCommute | frontend/src/pages/UserList.jsx:74 | flips of two different ids commute |
| UserList.FlippedRowShowsSentFlag | frontend/src/pages/UserList.jsx:73-74 | a toggled row shows the flag that was sent to the server |
| UserList.ReplaceRowsIdempotent | frontend/src/pages/UserList.jsx:66 | saving the same user twice is saving it once |
| UserList.SavedUserShownIffIdKnown | frontend/src/pages/UserList.jsx:66 | the saved user appears exactly when some row had its id; a user with an unknown id is not added |
| UserList.RolesFromText | frontend/src/pages/UserList.jsx:25 | one role per comma-separated piece of the text, each trimmed |
| UserList.SplitRolesText | frontend/src/pages/UserList.jsx:25 | the shown text splits at its commas into the first role and each further role after a space |
| UserList.RolesText | frontend/src/pages/UserList.jsx:25 | no roles give ""; one role gives itself; more start with the first role and ", " |
| UserList.TrimAfterSpace | frontend/src/pages/UserList.jsx:25 | trimming a space in front of a trimmed role gives the role |
| UserList.RolesTextRoundTrip | frontend/src/pages/UserList.jsx:25 | roles without commas or outer blanks survive being shown and read back unchanged |
| UserList.AccessDenied | frontend/src/pages/UserList.jsx:80-82 | denied without a user or without roles; with an array of roles, denied exactly when neither ADMIN nor ROOT is among them; it throws exactly when the roles have no `includes` |
| UserList.UserListState.constructor | frontend/src/pages/UserList.jsx:42-46 | no rows, loading, no dialog, no busy buttons |
| UserList.UserListState.LoadStart | frontend/src/pages/UserList.jsx:48-51 | the list is requested exactly when the identity provider is initialised and holds a token |
| UserList.UserListState.LoadSettle | frontend/src/pages/UserList.jsx:52-56 | the rows received, none for an answer without data, the rows kept on failure; loading ends |
| UserList.UserListState.HandleEdit | frontend/src/pages/UserList.jsx:60-63 | the dialog opens on the user |
| UserList.UserListState.HandleClose | frontend/src/pages/UserList.jsx:128 | the dialog closes and nothing else changes |
| UserList.UserListState.SaveStart | frontend/src/pages/UserList.jsx:64-65 | the request names the user id, or the user name when the id is falsy; the rows of this render are captured |
| UserList.UserListState.SaveSettle | frontend/src/pages/UserList.jsx:65-68 | on success the captured rows with the user replaced, and the dialog closes; on failure nothing changes and the error propagates |
| UserList.UserListState.ToggleStart | frontend/src/pages/UserList.jsx:70-73 | the user's button becomes busy, the opposite of the user's flag is sent, the rows of this render are captured |
| UserList.UserListState.ToggleSettle | frontend/src/pages/UserList.jsx:73-77 | as written: on success the captured rows with the user flipped; the button is freed either way |
| UserList.UserListState.ToggleSettleOnCurrent | frontend/src/pages/UserList.jsx:73-77 | corrected: on success the current rows with the user flipped; the button is freed either way |
| UserList.OverlappingTogglesAsWritten | frontend/src/pages/UserList.jsx:70-78 | two toggles started on one render both succeed, yet the first user still shows as enabled |
| UserList.OverlappingTogglesOnCurrent | frontend/src/pages/UserList.jsx:70-78 | with the corrected update both users show as disabled, as the server has them |
| TagDto.NormalizeName | backend/src/main/java/com/blog/posts/dto/request/TagDTO.java:17-19 | null stays null; any other name is no longer than before and has no upper-case letter |
| TagDto.SetName | backend/src/main/java/com/blog/posts/dto/request/TagDTO.java:17-19 | only the name changes, to its normal form |
| TagDto.LowerKeepsTrimmable | backend/src/main/java/com/blog/posts/dto/request/TagDTO.java:18 | lower-casing neither creates nor removes a character `trim` removes |
| TagDto.NormalizedNameTrimmed | backend/src/main/java/com/blog/posts/dto/request/TagDTO.java:18 | the stored name neither starts nor ends with a character `trim` removes |
| TagDto.NormalizeIdempotent | backend/src/main/java/com/blog/posts/dto/request/TagDTO.java:17-19 | setting a stored name again stores the same name |
| TagDto.NormalFormFixed | backend/src/main/java/com/blog/posts/dto/request/TagDTO.java:18 | a name without removable ends and capitals is its own normal form |
| TagDto.LeadingBlankIgnored | backend/src/main/java/com/blog/posts/dto/request/TagDTO.java:18 | a blank in front of a name does not change what is stored |
| TagDto.TrimStartOfUpper | backend/src/main/java/com/blog/posts/dto/request/TagDTO.java:18 | upper-casing commutes with trimming the start |
| TagDto.TrimEndOfUpper | backend/src/main/java/com/blog/posts/dto/request/TagDTO.java:18 | upper-casing commutes with trimming the end |
| TagDto.CaseIgnored | backend/src/main/java/com/blog/posts/dto/request/TagDTO.java:18 | a name and its upper-case form are stored the same |
| TagDto.LowerOfUpper | backend/src/main/java/com/blog/posts/dto/request/TagDTO.java:18 | lower-casing the upper-case form is lower-casing the text |
| PostService.TagNames | backend/src/main/java/com/blog/posts/service/impl/PostServiceImpl.java:68-69 | exactly the names the request's tags carry |
| PostService.FindByNameIn | backend/src/main/java/com/blog/posts/service/impl/PostServiceImpl.java:70 | exactly the stored tags whose non-null name is one of the names |
| PostService.ToNameMap | backend/src/main/java/com/blog/posts/service/impl/PostServiceImpl.java:71-72 | an IllegalStateException exactly when two found tags share a name; otherwise each found tag under its own name, and nothing else |
| PostService.Unknown | backend/src/main/java/com/blog/posts/service/impl/PostServiceImpl.java:75-83 | the request's tags whose name is not stored, never more than the request's tags |
| PostService.ResolveSavesUnknown | backend/src/main/java/com/blog/posts/service/impl/PostServiceImpl.java:74-85 | the loop inserts one new tag per request tag whose name is not stored, with that tag's name, description and slug, under consecutive fresh ids (whether the table accepts them is `PostService.TagOutcome`) |
| PostService.ResolveKnownSavesNothing | backend/src/main/java/com/blog/posts/service/impl/PostServiceImpl.java:74-85 | a request of stored names only saves nothing and uses exactly the stored tags of those names |
| PostService.ResolveCovers | backend/src/main/java/com/blog/posts/service/impl/PostServiceImpl.java:74-85 | every request tag is represented by a tag of its name, the stored one when there is one |
| PostService.ResolvedComeFromStoreOrSaves | backend/src/main/java/com/blog/posts/service/impl/PostServiceImpl.java:74-85 | every resulting tag is a stored tag or one the loop saved |
| PostService.Resolve | backend/src/main/java/com/blog/posts/service/impl/PostServiceImpl.java:74-85 | the new tags of the loop get consecutive ids from the next free one, in the order saved |
| PostService.ResolveStep | backend/src/main/java/com/blog/posts/service/impl/PostServiceImpl.java:78-83 | one more request tag adds its stored tag, or a new tag under the next free id to the tags and the saves |
| PostService.TagOutcome | backend/src/main/java/com/blog/posts/service/impl/PostServiceImpl.java:66-85 | a clash of stored names is an IllegalStateException; otherwise the loop's tags and saves when every save is accepted, and a DataIntegrityViolationException when one is refused |
| PostService.AdmissibleKeepsUnique | backend/src/main/java/com/blog/posts/model/Tag.java:15-19 | an accepted insert keeps the name and slug columns unique |
| PostService.SavesKeepUnique | backend/src/main/java/com/blog/posts/model/Tag.java:15-19 | a run of accepted inserts keeps the name and slug columns unique |
| PostService.SavedTagsKeepTable | backend/src/main/java/com/blog/posts/service/impl/PostServiceImpl.java:74-85 | accepted saves under the next free ids keep the ids the table positions and the columns unique |
| PostService.SavesAdmissibleStep | backend/src/main/java/com/blog/posts/service/impl/PostServiceImpl.java:80-83 | a run of inserts with one more is accepted exactly when the run is and the new insert is accepted after it |
| PostService.SavesAdmissiblePrefix | backend/src/main/java/com/blog/posts/service/impl/PostServiceImpl.java:74-85 | every prefix of an accepted run of inserts is accepted |
| PostService.ResolvePrefix | backend/src/main/java/com/blog/posts/service/impl/PostServiceImpl.java:74-85 | the saves for a prefix of the request are the first saves for the whole request |
| PostService.AcceptedStep | backend/src/main/java/com/blog/posts/service/impl/PostServiceImpl.java:80-83 | an accepted insert adds the new tag to the tags and the saves, and keeps the run accepted |
| PostService.RefusalIsFinal | backend/src/main/java/com/blog/posts/service/impl/PostServiceImpl.java:80-83 | one refused insert in the loop makes the whole request refused |
| PostService.StoredNamesNeverClash | backend/src/main/java/com/blog/posts/service/impl/PostServiceImpl.java:70-72 | with unique stored names the found tags never share a name, so the map collector cannot throw |
| PostService.RepeatedNewNameRefused | backend/src/main/java/com/blog/posts/service/impl/PostServiceImpl.java:71-83 | a new name given twice in one request is inserted twice, and the second insert is refused by the unique name column |
| PostService.CategorySet | backend/src/main/java/com/blog/posts/service/impl/PostServiceImpl.java:112-118 | exactly the non-null ids the category repository knows |
| PostService.CategorySetIgnoresNullAndUnknown | backend/src/main/java/com/blog/posts/service/impl/PostServiceImpl.java:112-118 | a null or an unknown id does not change the categories |
| PostService.Updated | backend/src/main/java/com/blog/posts/service/impl/PostServiceImpl.java:105-139 | the request's title, content, excerpt, slug, image, published flag and author name, the given categories and tags; id and author user name kept |
| PostService.UpdateForgetsOldFields | backend/src/main/java/com/blog/posts/service/impl/PostServiceImpl.java:105-139 | nothing of the old post but its id and author user name survives an update |
| PostService.RowKey | backend/src/main/java/com/blog/posts/service/impl/PostServiceImpl.java:89-90 | a post with an id is saved under it, one without under the next fresh id |
| PostService.StoredRowStorable | backend/src/main/java/com/blog/posts/model/Post.java:33-34 | a post the database accepted is accepted again under the same key, and the slugs stay unique |
| PostService.TakenSlugRefused | backend/src/main/java/com/blog/posts/model/Post.java:33-34 | a slug another stored post holds refuses the post |
| PostService.PostServiceImpl.constructor | backend/src/main/java/com/blog/posts/service/impl/PostServiceImpl.java:34-45 | empty repositories but the known categories |
| PostService.PostServiceImpl.GetPostById | backend/src/main/java/com/blog/posts/service/impl/PostServiceImpl.java:56-63 | PostNotFoundException exactly for an unknown id; otherwise the stored post, carrying that id |
| PostService.PostServiceImpl.GetAllPosts | backend/src/main/java/com/blog/posts/service/impl/PostServiceImpl.java:48-53 | every stored post, each the one stored under its own id |
| PostService.PostServiceImpl.ResolveTags | backend/src/main/java/com/blog/posts/service/impl/PostServiceImpl.java:66-85 | the outcome of `TagOutcome`: a clash of stored names or a refused insert throws and leaves the tags table as it was; otherwise the loop's tags, with its new tags appended to the table, whose columns stay unique |
| PostService.PostServiceImpl.Save | backend/src/main/java/com/blog/posts/model/Post.java:20-38 | the post is stored under its id, or under a fresh id when it has none, exactly when its title, content, author user name and slug are set and no other stored post has its slug; otherwise DataIntegrityViolationException and nothing changes |
| PostService.PostServiceImpl.CreateOrUpdatePost | backend/src/main/java/com/blog/posts/service/impl/PostServiceImpl.java:65-93 | a name clash or a refused tag insert throws and changes nothing; a null or unknown category id throws when the mapper resolves it, after the tags are saved, and rolls the new tags back; a post the database refuses (a null column or a taken slug) throws DataIntegrityViolationException and rolls the new tags back; otherwise the mapped post with the resolved tags and categories is stored (twice, to the same effect) and can be read back by its id |
| PostService.ResolveCategories | backend/src/main/java/com/blog/posts/mapper/PostMapper.java:40-52 | the request's category ids resolve exactly when every one is non-null and names a stored category, giving those categories; otherwise the failure names a null id (InvalidDataAccessApiUsageException) or an unknown id ("Category not found with id: ") present in the request |
| PostService.PostServiceImpl.UpdatePost | backend/src/main/java/com/blog/posts/service/impl/PostServiceImpl.java:95-144 | an unknown id throws PostNotFoundException, a different author UnsupportedOperationException, a name clash IllegalStateException, a refused tag insert or a refused post (a null column or another post's slug) DataIntegrityViolationException, each changing nothing; otherwise the updated post is stored and read back |
| PostService.PostServiceImpl.DeleteBlog | backend/src/main/java/com/blog/posts/service/impl/PostServiceImpl.java:146-149 | the post of that id is gone and nothing else changes; an id no post has, negative ids included, deletes nothing |
| Base64.ValueOfCharOf | backend/src/main/java/com/blog/auth/mapper/UserMapper.java:43-52 | each 6-bit value's alphabet character reads back as that value |
| Base64.Quad | backend/src/main/java/com/blog/auth/mapper/UserMapper.java:52 | three bytes become four alphabet characters |
| Base64.Encode | backend/src/main/java/com/blog/auth/mapper/UserMapper.java:52 | four characters per started group of three bytes, each from the alphabet or the padding |
| Base64.Unit | backend/src/main/java/com/blog/auth/mapper/UserMapper.java:43-56 | four 6-bit values give three bytes |
| Base64.UnitOfEncoded | backend/src/main/java/com/blog/auth/mapper/UserMapper.java:43-52 | three bytes survive a trip through their four 6-bit values |
| Base64.DecodeQuad | backend/src/main/java/com/blog/auth/mapper/UserMapper.java:43-52 | the four characters of three bytes decode to them |
| Base64.DecodeEncodeOne | backend/src/main/java/com/blog/auth/mapper/UserMapper.java:43-52 | one byte survives encoding with two padding characters and decoding |
| Base64.DecodeEncodeTwo | backend/src/main/java/com/blog/auth/mapper/UserMapper.java:43-52 | two bytes survive encoding with one padding character and decoding |
| Base64.DecodeEncode | backend/src/main/java/com/blog/auth/mapper/UserMapper.java:43-56 | decoding the encoder's text gives the bytes back, for every byte string |
| Base64.Decode | backend/src/main/java/com/blog/auth/mapper/UserMapper.java:43-46 | the empty text decodes to no bytes; a successful decoding gives at most three bytes per four characters |
| Base64.LoneCharacterRejected | backend/src/main/java/com/blog/auth/mapper/UserMapper.java:43-46 | a final unit of one character is refused, padded or not |
| Base64.IncompletePaddingRejected | backend/src/main/java/com/blog/auth/mapper/UserMapper.java:43-46 | incomplete padding, and text after the padding, are refused |
| Base64.PaddingOptional | backend/src/main/java/com/blog/auth/mapper/UserMapper.java:43 | a final unit without its padding decodes as with it |
| Base64.Utf8Char | backend/src/main/java/com/blog/auth/mapper/UserMapper.java:46 | one to four bytes per character, one exactly for ASCII |
| Base64.Utf8 | backend/src/main/java/com/blog/auth/mapper/UserMapper.java:46 | at least one byte per character |
| Base64.Utf8OfAscii | backend/src/main/java/com/blog/auth/mapper/UserMapper.java:46 | the bytes of an ASCII text are its character codes |
| UserMapper.StringToByteArray | backend/src/main/java/com/blog/auth/mapper/UserMapper.java:37-48 | null exactly for null or blank text; Base64 text gives its bytes; other text its UTF-8 bytes |
| UserMapper.MapBytes | backend/src/main/java/com/blog/auth/mapper/UserMapper.java:51-53 | null stays null; bytes become text that decodes back to them |
| UserMapper.MapString | backend/src/main/java/com/blog/auth/mapper/UserMapper.java:55-57 | null stays null; it throws exactly on text that is not Base64, and otherwise gives the decoded bytes |
| UserMapper.EncodedNotBlank | backend/src/main/java/com/blog/auth/mapper/UserMapper.java:39-52 | Base64 text contains no character `trim` removes |
| UserMapper.StringToByteArrayOfMapped | backend/src/main/java/com/blog/auth/mapper/UserMapper.java:37-53 | non-empty bytes survive `map(byte[])` followed by `stringToByteArray`; empty bytes come back null |
| UserMapper.MapStringOfMapBytes | backend/src/main/java/com/blog/auth/mapper/UserMapper.java:51-57 | `map(String)` undoes `map(byte[])`, null included |
| UserMapper.FallbackOnlyInStringToByteArray | backend/src/main/java/com/blog/auth/mapper/UserMapper.java:42-57 | text that is not Base64 is kept as its bytes by `stringToByteArray` but makes `map(String)` throw |
| UserMapper.SpaceIsNotBase64 | backend/src/main/java/com/blog/auth/mapper/UserMapper.java:42-47 | a text with an inner space is not Base64 and is kept as its bytes |
| Users.Named | backend/src/main/java/com/blog/auth/service/impl/AdminServiceImpl.java:88-95 | exactly the ids of the users stored under a non-null name: what `findByUsername` looks up |
| Users.NamedAtMostOne | backend/src/main/java/com/blog/auth/model/User.java:29-30 | with unique usernames a name finds at most one user |
| Users.Save | backend/src/main/java/com/blog/auth/model/User.java:23-24 | the row is stored under its id or the next id exactly when the database accepts it, it has an identity-provider id and no other row holds its name |
| Users.SaveKeepsUnique | backend/src/main/java/com/blog/auth/model/User.java:29-30 | a save keeps usernames unique |
| Users.SaveKeepsIdpIds | backend/src/main/java/com/blog/auth/model/User.java:23-24 | a save keeps every stored row with an identity-provider id |
| Users.SaveNewKeepsValid | backend/src/main/java/com/blog/auth/service/impl/AdminServiceImpl.java:63-64 | a new row goes under the next id and the repository stays consistent with the id after it |
| Users.NextAfter | backend/src/main/java/com/blog/auth/service/impl/UserServiceImpl.java:71 | the next id is past the saved one |
| Users.StoredImage | backend/src/main/java/com/blog/auth/mapper/UserMapper.java:24-53 | null exactly for a missing or blank image; otherwise Base64 text that decodes to the bytes `stringToByteArray` gives |
| Users.Base64ImageStoredAsSent | backend/src/main/java/com/blog/auth/mapper/UserMapper.java:24-53 | an image sent as Base64 is stored as sent |
| Users.TextImageStoredEncoded | backend/src/main/java/com/blog/auth/mapper/UserMapper.java:24-53 | an image sent as other text is stored as the Base64 of its UTF-8 bytes |
| Users.FromRequest | backend/src/main/java/com/blog/auth/mapper/UserMapper.java:24-27 | the request's fields, its image converted, enabled, and no identity-provider id |
| Users.RowForIdpUser | backend/src/main/java/com/blog/auth/service/impl/UserServiceImpl.java:45 | the request's row with the identity provider's id, its name, e-mail, role and image, enabled |
| Users.CreatedInIdp | backend/src/main/java/com/blog/auth/mapper/UserMapper.java:22 | the request's fields with the identity provider's new id, enabled, and no user id |
| Users.FromInfo | backend/src/main/java/com/blog/auth/mapper/UserMapper.java:29-36 | the reported fields, the image converted |
| Users.ToInfo | backend/src/main/java/com/blog/auth/mapper/UserMapper.java:14-17 | the stored fields under the stored id |
| Users.FromInfoOfToInfo | backend/src/main/java/com/blog/auth/mapper/UserMapper.java:14-36 | reporting a stored user and mapping the report back gives the user again, once its image is in stored form |
| AdminService.IsItSelfOrRootUser | backend/src/main/java/com/blog/auth/service/impl/AdminServiceImpl.java:197-204 | throws OperationNotPermit exactly when nobody is logged in; otherwise true exactly for the logged-in name or the root user's name |
| AdminService.TargetOf | backend/src/main/java/com/blog/auth/service/impl/AdminServiceImpl.java:120-153 | an unknown id throws UserNotFoundException; no login throws "You are not logged in"; the caller or root throws OperationNotPermit; otherwise the stored user |
| AdminService.Toggle | backend/src/main/java/com/blog/auth/service/impl/AdminServiceImpl.java:118-166 | a failed check changes nothing; otherwise the answer is the identity provider's success, and only the target's enabled flag changes, to the requested value on success and to its opposite on failure |
| AdminService.FailedToggleSetsOpposite | backend/src/main/java/com/blog/auth/service/impl/AdminServiceImpl.java:134-165 | an identity-provider failure answers false and saves the opposite of the requested flag |
| AdminService.SelfAndRootUntouched | backend/src/main/java/com/blog/auth/service/impl/AdminServiceImpl.java:125-153 | the caller's own account and root are never changed, and with a login the call throws OperationNotPermit |
| AdminService.RequestRowRefused | backend/src/main/java/com/blog/auth/service/impl/AdminServiceImpl.java:63-64 | as written, the saved row `toUser(request)` has no identity-provider id, so the not-null column refuses every such save |
| AdminService.IdpRowSaved | backend/src/main/java/com/blog/auth/service/impl/AdminServiceImpl.java:63-64 | the row with the identity provider's id and a free name is saved under the next id |
| AdminService.AdminServiceImpl.constructor | backend/src/main/java/com/blog/auth/service/impl/AdminServiceImpl.java:36-45 | no users and no identity-provider calls |
| AdminService.AdminServiceImpl.CreateUser | backend/src/main/java/com/blog/auth/service/impl/AdminServiceImpl.java:47-73 | corrected (see Findings and AdminService.RequestRowRefused): saves the row with the identity provider's id, Users.RowForIdpUser, where the source saves `toUser(request)`. An identity-provider failure throws and saves nothing; a database refusal rolls the identity-provider user back and throws; otherwise that row is stored under a new id, which the response carries |
| AdminService.AdminServiceImpl.SetEnabled | backend/src/main/java/com/blog/auth/service/impl/AdminServiceImpl.java:116-166 | the answer and the users are those of Toggle; the identity provider is called only once the checks pass |
| AdminService.AdminServiceImpl.EnableAndDisableUser | backend/src/main/java/com/blog/auth/service/impl/AdminServiceImpl.java:168-172 | a `null` flag throws NullPointerException and changes nothing; otherwise enables when the flag is set and disables when not, as Toggle states |
| AdminService.AdminServiceImpl.DeleteUser | backend/src/main/java/com/blog/auth/service/impl/AdminServiceImpl.java:81-114 | an unknown name throws before any identity-provider call; an identity-provider failure throws and keeps the user; otherwise the named user is removed and the answer is true |
| UserService.Updated | backend/src/main/java/com/blog/auth/service/impl/UserServiceImpl.java:107-113 | role, names, enabled flag, image and age come from the request; e-mail, username and identity-provider id are kept |
| UserService.SignUpCarriesIdpId | backend/src/main/java/com/blog/auth/service/impl/UserServiceImpl.java:42-47 | the user a sign-up saves is the one the administrator's path saves, plus the identity provider's id |
| UserService.Import | backend/src/main/java/com/blog/auth/service/impl/UserServiceImpl.java:58-81 | the user an import stops at is one of the reported users |
| UserService.ImportKeepsStored | backend/src/main/java/com/blog/auth/service/impl/UserServiceImpl.java:65-71 | an import only adds rows: every user already stored stays as it was |
| UserService.ImportBounded | backend/src/main/java/com/blog/auth/service/impl/UserServiceImpl.java:71 | every stored id stays below the next id the database gives |
| UserService.ImportOfKnownChangesNothing | backend/src/main/java/com/blog/auth/service/impl/UserServiceImpl.java:65-69 | reported users whose names are all stored are all skipped, and nothing changes |
| UserService.ImportAllAccepted | backend/src/main/java/com/blog/auth/service/impl/UserServiceImpl.java:62-80 | when the database accepts every save, the import does not fail |
| UserService.ImportComplete | backend/src/main/java/com/blog/auth/service/impl/UserServiceImpl.java:62-80 | after an import that did not fail, every reported user with a name is stored |
| UserService.UserServiceImpl.constructor | backend/src/main/java/com/blog/auth/service/impl/UserServiceImpl.java:29-35 | no users and no identity-provider calls |
| UserService.UserServiceImpl.CreateUser | backend/src/main/java/com/blog/auth/service/impl/UserServiceImpl.java:37-56 | an identity-provider failure propagates and saves nothing; a refused save deletes the identity-provider user and throws the username; otherwise the reported user is stored under a new id, which the response carries |
| UserService.UserServiceImpl.SaveUsersFromIdp | backend/src/main/java/com/blog/auth/service/impl/UserServiceImpl.java:58-81 | the users and next id are those of Import; a failed save deletes that user in the identity provider and throws its username |
| UserService.UserServiceImpl.UpdateUser | backend/src/main/java/com/blog/auth/service/impl/UserServiceImpl.java:97-121 | no login or an unknown user throws UserNotFoundException; a row the database refuses is refused at commit, outside the method's catch, as DataIntegrityViolationException, and nothing changes; otherwise the user becomes Updated and is reported |
| UserService.UserServiceImpl.GetUserById | backend/src/main/java/com/blog/auth/service/impl/UserServiceImpl.java:123-133 | the stored user's report, or UserNotFoundException for a missing id |
| CommentService.Lookup | backend/src/main/java/com/blog/comments/service/CommentService.java:159-169 | the stored comment exactly when the id is stored, otherwise ResourceNotFoundException for that id |
| CommentService.ToDto | backend/src/main/java/com/blog/comments/service/CommentService.java:207-212 | the entity's fields under its id, its parent's id, and no replies yet |
| CommentService.BuildTree | backend/src/main/java/com/blog/comments/service/CommentService.java:201-227 | the comment's fields; every reply node is a direct reply that names it as parent, and every direct reply has a node |
| CommentService.BuildCommentTree | backend/src/main/java/com/blog/comments/service/CommentService.java:201-224 | null exactly for null; a comment without replies gets an empty reply set, one with replies a non-empty set |
| CommentService.DescendantOfChild | backend/src/main/java/com/blog/comments/service/CommentService.java:215-221 | a reply at any depth below a direct reply is below the comment it answers |
| CommentService.DescendantThroughChild | backend/src/main/java/com/blog/comments/service/CommentService.java:215-221 | a reply at any depth lies below one of the direct replies |
| CommentService.TreeShowsSubtree | backend/src/main/java/com/blog/comments/service/CommentService.java:201-227 | the tree of a comment shows exactly that comment and its replies at every depth |
| CommentService.TreeForPost | backend/src/main/java/com/blog/comments/service/CommentService.java:57-63 | only parentless comments of the post start trees, and every such comment starts one |
| CommentService.RootOnSamePost | backend/src/main/java/com/blog/comments/service/CommentService.java:79-87 | where each reply is on its parent's post, the comment a reply chain starts from is on the same post |
| CommentService.EveryCommentShown | backend/src/main/java/com/blog/comments/service/CommentService.java:57-63 | every comment of a post, reply or not, appears in one of the post's trees |
| CommentService.ParentOf | backend/src/main/java/com/blog/comments/service/CommentService.java:78-87 | no parent id means no parent; a parent found exists and is on the request's post |
| CommentService.FromDto | backend/src/main/java/com/blog/comments/service/CommentService.java:76-81 | the request's content and post with the parent found |
| CommentService.CreateAsWritten | src/main/java/com/blog/comments/mapper/CommentMapper.java:17 | `createComment` as written: a checked request carrying a stored id overwrites that comment with every field of the request, parent included, takes no new id, and deletes the comment's replies at every depth as orphans; a new parent among those replies makes the flush fail with DataIntegrityViolationException; any other request is stored under the next id |
| CommentService.CreateAsWrittenDropsReplies | src/main/java/com/blog/comments/model/Comment.java:42-48 | a create request carrying the id of comment 1 passes every check, overwrites its content and author, and deletes its reply 2 |
| CommentService.CreateAsWrittenUnderOwnReplyRefused | src/main/java/com/blog/comments/model/Comment.java:42-48 | the same request naming reply 2 as its parent passes the parent checks, and the save is refused |
| CommentService.CreateAsWrittenOwnParent | backend/src/main/java/com/blog/comments/service/CommentService.java:55-62 | a request with id 1 naming comment 1 as its parent is saved and makes comment 1 its own parent, so it has a parent and is no longer a root of the post's tree |
| CommentService.MissingParentRejected | backend/src/main/java/com/blog/comments/service/CommentService.java:79-80 | a reply to a missing comment throws ResourceNotFoundException for the parent id |
| CommentService.OtherPostRejected | backend/src/main/java/com/blog/comments/service/CommentService.java:83-86 | a reply to a comment on another post throws IllegalArgumentException |
| CommentService.CreatedKeepsTree | backend/src/main/java/com/blog/comments/service/CommentService.java:89-90 | saving a checked comment under a fresh id keeps every parent saved before its replies, and keeps replies on their parent's post |
| CommentService.Patched | src/main/java/com/blog/comments/mapper/CommentMapper.java:9-35 | every field the request gives (content, author id, name and e-mail, post) replaces the stored one and every null one keeps it; `approved` always comes from the request; the parent is kept; the not-null columns stay filled |
| CommentService.PatchWithoutPostKeepsPost | backend/src/main/java/com/blog/comments/service/CommentService.java:120 | a request without a post id leaves the comment on its post |
| CommentService.WithoutSubtree | backend/src/main/java/com/blog/comments/service/CommentService.java:145-148 | a removal cascades: exactly the comment and its replies at every depth go, and the rest is untouched |
| CommentService.WithoutSubtreeKeepsTree | backend/src/main/java/com/blog/comments/service/CommentService.java:145-148 | after a removal no reply is left without its parent, and replies stay on their parent's post |
| CommentService.DeleteRemovesShownTree | backend/src/main/java/com/blog/comments/service/CommentService.java:145-148 | deleting a comment removes exactly the ids its tree shows |
| CommentService.CommentService.constructor | backend/src/main/java/com/blog/comments/service/CommentService.java:22-25 | no comments |
| CommentService.CommentService.GetCommentById | backend/src/main/java/com/blog/comments/service/CommentService.java:159-169 | the answer of Lookup; nothing changes |
| CommentService.CommentService.GetCommentTreeForPost | backend/src/main/java/com/blog/comments/service/CommentService.java:57-63 | the trees of TreeForPost; nothing changes |
| CommentService.CommentService.CreateComment | backend/src/main/java/com/blog/comments/service/CommentService.java:71-103 | saved exactly when the parent check passes and the not-null columns are filled; a failure saves nothing and carries the check's error; a success stores the comment under a fresh id, keeps every stored comment as it was, and reports it with its parent's id (the request's id is ignored; see Findings) |
| CommentService.CommentService.UpdateComment | backend/src/main/java/com/blog/comments/service/CommentService.java:112-133 | fails exactly for a missing id, changing nothing; otherwise the stored comment is Patched and reported |
| CommentService.CommentService.DeleteComment | backend/src/main/java/com/blog/comments/service/CommentService.java:140-150 | fails exactly for a missing id, deleting nothing; otherwise the comment goes with its replies at every depth |
| Security.GrantedAuthorities | backend/src/main/java/com/blog/auth/config/SecurityConfig.java:89-99 | no claim or no `roles` key gives no authorities; a null role list throws; otherwise each role, in order, becomes `ROLE_` plus the role |
| Security.Prefixed | backend/src/main/java/com/blog/auth/config/SecurityConfig.java:95-96 | one authority per role, in order, each the role with the `ROLE_` prefix |
| Security.RoleNames | backend/src/main/java/com/blog/auth/config/SecurityConfig.java:63-96 | one role name per authority |
| Security.RoleNamesOfGranted | backend/src/main/java/com/blog/auth/config/SecurityConfig.java:63-96 | dropping the prefix gives the token's roles back, in order, so none is lost or renamed |
| Security.Apply | backend/src/main/java/com/blog/auth/config/SecurityConfig.java:52-74 | permitAll lets everyone through; otherwise an anonymous caller gets 401; `authenticated` admits any logged-in caller; `hasAnyRole` admits exactly callers holding one of the prefixed roles and answers 403 to the others |
| Security.Decide | backend/src/main/java/com/blog/auth/config/SecurityConfig.java:48-66 | the first rule that matches decides |
| Security.PublicApiRuleMatches | backend/src/main/java/com/blog/auth/config/SecurityConfig.java:54 | the rule matches exactly the paths under `/v1/api/public` and `/v1/api/post/categories`, for every verb |
| Security.PublicDocsRuleMatches | backend/src/main/java/com/blog/auth/config/SecurityConfig.java:56 | the rule matches exactly the paths under `/public`, `/swagger-ui` and `/v3/api-docs`, for every verb |
| Security.ReadRuleMatches | backend/src/main/java/com/blog/auth/config/SecurityConfig.java:59 | the rule matches exactly GET on the paths under `/v1/api/comment` and on `/v1/api/post` |
| Security.SinglePatternRulesMatch | backend/src/main/java/com/blog/auth/config/SecurityConfig.java:51-64 | the first rule matches every OPTIONS request, the admin rule exactly the paths under `/v1/api/admin`, and the last rule every request |
| Security.AuthorizeCases | backend/src/main/java/com/blog/auth/config/SecurityConfig.java:48-66 | OPTIONS always passes, then the public paths, then the administrator's pages need ADMIN or ROOT, and every other request needs a login |
| Security.Authorize | backend/src/main/java/com/blog/auth/config/SecurityConfig.java:48-66 | a preflight OPTIONS request is always permitted; AuthorizeCases states the rest of the chain |
| Security.ChainTail | backend/src/main/java/com/blog/auth/config/SecurityConfig.java:59-65 | the last three rules decide GET reads, then the administrator's pages, then everything else |
| Security.AdminNotPublic | backend/src/main/java/com/blog/auth/config/SecurityConfig.java:54-63 | no public rule covers an administrator's page |
| Security.AdminNeedsRole | backend/src/main/java/com/blog/auth/config/SecurityConfig.java:62-74 | outside OPTIONS, an administrator's page passes exactly for `ROLE_ADMIN` or `ROLE_ROOT`, and anonymous callers get 401 |
| Security.AdminRoleOpensAdminPages | backend/src/main/java/com/blog/auth/config/SecurityConfig.java:62-99 | a token whose realm roles include ADMIN or ROOT opens the administrator's pages |
| Security.MoreAuthoritiesNeverHurt | backend/src/main/java/com/blog/auth/config/SecurityConfig.java:48-66 | more authorities never lose access, and whatever an anonymous caller may do, a logged-in caller may do too |
| BlogMapper.Blog.constructor | blog/src/main/java/blog/mapper/BlogMapper.java:35-41 | an entity holding the given fields |
| BlogMapper.DtoOf | blog/src/main/java/blog/mapper/BlogMapper.java:20-27 | id, title, content and both times copied |
| BlogMapper.ToDto | blog/src/main/java/blog/mapper/BlogMapper.java:15-28 | null exactly for a null entity; otherwise the entity's id, title, content and both times |
| BlogMapper.NewFields | blog/src/main/java/blog/mapper/BlogMapper.java:35-41 | no id, the request's title and content, and both times set to now |
| BlogMapper.ToEntity | blog/src/main/java/blog/mapper/BlogMapper.java:30-42 | null exactly for a null request; otherwise a new entity holding NewFields |
| BlogMapper.Patched | blog/src/main/java/blog/mapper/BlogMapper.java:44-56 | a null request changes nothing; otherwise title and content change only where given, id and creation time stay, and the update time becomes now |
| BlogMapper.UpdateEntityFromDto | blog/src/main/java/blog/mapper/BlogMapper.java:44-56 | throws exactly for a request given with a null entity; otherwise the entity's fields become Patched |
| BlogMapper.DtoOfNewFields | blog/src/main/java/blog/mapper/BlogMapper.java:20-41 | a new entity's transfer object gives back the request's title and content, with no id and both times set to now |
| BlogMapper.PatchWithOwnDto | blog/src/main/java/blog/mapper/BlogMapper.java:20-56 | copying an entity's own transfer object onto it changes only its update time |
| BlogMapper.PatchTwice | blog/src/main/java/blog/mapper/BlogMapper.java:44-56 | applying the same update twice is applying it once, except for the update time |
| BlogMapper.EmptyPatchTouchesOnly | blog/src/main/java/blog/mapper/BlogMapper.java:49-55 | a request with neither title nor content only refreshes the update time |
| BlogMapper.PatchKeepsIdentity | blog/src/main/java/blog/mapper/BlogMapper.java:44-56 | an update never changes the id or the creation time |

## Left out

- Rendering, styling, console logging and every other presentational part of the React components: the model keeps the decisions those components make, not the markup.
- `formatDate`, `debounce` and `fileToBase64` in `frontend/src/utils/helpers.js`: they need the locale-aware `Date`, timers and the browser's `FileReader`.
- The intersection observer that triggers `loadMore` in `useInfiniteScroll`: it is a browser callback. The model starts the load directly.
- The image file reader of the post editor: the data URL it produces is a parameter of `PostForm.PostFormState.ImageRead`.
- `useAuth` imports `exportedAPI`, which `frontend/src/services/api.js` does not export (see Findings). Under the bundler the binding is `undefined`, and every call on it throws a `TypeError`: this is what `Auth.AuthState` models by default. Under native ES modules the import would instead fail to link, and that is not modelled.
- The corrected hook (`Auth.AuthState.WithApi`) assumes an API object with all five methods the hook calls. The exported `authAPI` has only `login` and `getCurrentUser`, so no object in `frontend/src/services/api.js` provides it. The answers of `getCurrentUser`, `login` and `register` are parameters of the settle, login and register methods. The Keycloak session behind them is not modelled.
- The refresh timer and keycloak-js calls of the authentication context: timer and library glue.
- The Keycloak client wrappers (`KeycloakClientImpl`): their answers are parameters. A created user's id, whether an enable, disable or delete succeeded, and whether a rollback ran are recorded as identity-provider calls.
- The controllers, exception handlers, repositories, entities and DTO classes: framework code. Repositories are maps inside the service classes.
- The thin `CommentServiceImpl` wrapper: it only delegates to the repository.
- The duplicate sources under `src/main/java` and `backend/`: the `backend/` versions are modelled, except for comments. `backend/.../CommentService.java` imports `com.blog.comments.dto.CommentDto` and `com.blog.comments.mapper.CommentMapper`, which exist only under `src/main/java`. The comment model therefore follows `src/main/java`'s `CommentDto`, its mapper (`toDto`, `toEntity`, `updateEntityFromDto`) and its `Comment` entity.
- `getByUserName`, `getAllUser`, `changeUserPassword` and the comment counts: read-only queries or stubs outside the modelled operations.
- Database constraints: the modelled ones are the unique usernames and the not-null identity-provider id of users (Users.Save), the not-null columns of comments (CommentService.Storable), the set, unique tag names and slugs (PostService.UniqueTags), and the posts' not-null title, content, author user name and slug, with unique slugs (PostService.Storable). A violation rolls the transaction back. Users take one `accepted` flag per save for every other refusal of the database. Other refusals of comment and post saves, such as column lengths, are not modelled. JPA's cascades are modelled for comments (a deletion removes the replies, and a merge removes them as orphans); lazy loading is not modelled.
- CommentService.CreateAsWritten: a request id that no stored comment has is taken as a new comment under the next id. Recent Hibernate versions refuse such a merge instead; that refusal is not modelled.
- CommentService.CreateAsWritten: a merge that re-parents a comment under one of its own replies fails at flush. The model names that failure DataIntegrityViolationException; depending on the order in which Hibernate flushes, it may instead report the deleted parent as an entity passed to merge. Either way nothing is saved.
- PostService.PostServiceImpl.GetAllPosts: returns the stored posts as a set, so the order of the list the repository returns is not modelled.
- The mapper that builds a new post entity from a request (`PostMapper`): its category lookup is modelled (PostService.ResolveCategories); the rest of the entity it builds is passed to `PostService.PostServiceImpl.CreateOrUpdatePost`.
- PostService.ResolveCategories: the request's ids are a `Set<Long>`, so when several are bad, which one the mapper meets first follows the set's iteration order. The model meets them in request order and states only that the reported id is a bad one from the request.
- CommentService.BuildTree: replies are a set, as in the source; the order of the top-level list `getCommentTreeForPost` returns is not modelled (`CommentService.TreeForPost` is a set).
- Logging, and the text of exception causes that the services append to their messages (`e.getMessage()`): errors are modelled by kind, and by message where the message is fixed.
- AdminService.Toggle: the database save after a successful identity-provider call is assumed to succeed, like the reverting save in the catch branch. A failing save is not modelled.
- Users.Named: `findByUsername(null)` finds nobody; the model represents a missing name as `None` and matches only present names.
- `LocalDateTime.now()` is a parameter `now`, an integer instant. BlogMapper.NewFields: both times are the same `now`, although the source calls the clock twice.
- Security.Authorize: decides by the path rules alone. A request carrying an invalid or expired bearer token is rejected with 401 by the resource server's token filter before the rules are consulted, even on a public path; token validation is not modelled.
- Security.Decide: a pattern `/x/**` matches `/x` and every path below it. Spring's trailing-slash and path-normalisation variants are not modelled.
- Js.Lower: lowers ASCII capitals only. JavaScript's `toLowerCase` and Java's `toLowerCase` map all of Unicode.
- Js.Upper: upper-cases ASCII letters only, where `toUpperCase` maps all of Unicode (and may lengthen a text, as "ß" becomes "SS").
- TagDto.NormalizeName: lowers ASCII only, through Js.Lower; Java's `toLowerCase` also lowers other scripts.
- Helpers.Truncate: counts characters as code points. JavaScript's `length` and `substring` count UTF-16 code units, so text with characters outside the Basic Multilingual Plane is cut at another place, possibly inside a surrogate pair.
- Helpers.ValidatePassword: the length flag counts code points. JavaScript's `password.length` counts UTF-16 code units, so a password of fewer than 8 characters that has characters outside the Basic Multilingual Plane can reach the length in the source but not in the model.
- UserService.UserServiceImpl.UpdateUser: a refused row surfaces at commit. The model names that failure DataIntegrityViolationException, Spring's translation of the database's error; the exact class can depend on the persistence provider.
- Helpers.GetInitials: takes the first code point of each word; JavaScript's `n[0]` takes the first UTF-16 code unit, half of a surrogate pair for such characters.
- Avatar.CharAt0: the first code point; `charAt(0)` gives the first UTF-16 code unit.
- Avatar.AvatarInitials: built from Avatar.CharAt0 and Js.Upper, so it shares both gaps above.
- Helpers.FormatNumber: integers only. The source applies `num.toString()` and a grouping regular expression. Two of its outputs are not modelled: a fraction such as 1234.5678 is grouped on both sides of the point ("1,234.5,678"), and a number of 1e21 or more is printed in exponent form before grouping.
- Js.Value: JavaScript numbers are modelled as integers and NaN. Fractions, infinities and negative zero are not modelled.
- Js.ToNumber: numbers are integers. Fractions, exponents, hexadecimal, octal and binary prefixes and `Infinity` give NaN in the model, where JavaScript gives a number.
- Js.StrictEquals: compares arrays and objects by content. The model has no object identity, so two distinct but equal objects compare equal where `===` says they differ.
- Helpers.RemoveCodeBlocks: the lemmas state the removal for blocks whose inner text, and the text before them, contain no backtick. The function handles inner backticks as the lazy pattern does, but no lemma states that case.
- Js.JsTrim: the function's own contract states only the length; what is removed is stated by Js.JsTrimEnds. The same holds for Js.JavaTrim and Js.JavaTrimEnds.
- UseForm.FormState.IsDirty: compares the values as maps. The source compares `JSON.stringify` texts. These also differ when the same entries are in a different key order. They also agree when a key holding `undefined` is present on one side only, because `JSON.stringify` drops such keys.
- UseForm.FormState.HandleBlur: validates the current values. The source's `handleBlur` passes `validate` the `values` of the render that created it (useForm.js:45), so a blur right after a change can validate the value before that change; this staleness is not modelled.
- UseForm.FormState.HandleChange: reads the current state. The source's `handleChange` and `handleBlur` read `errors` from the render that created them, and that staleness is not modelled.
- PostForm.PostFormState.LoadPostSettle: stores `published` by its truthiness, as the checkbox shows it. A truthy text field that is not a string (a number, say) is stored as the fallback text; the source stores the value itself.
- PostForm.KeyOf: the text of an array used as a property key is not modelled. The category lookup never receives one.
- Base64.Utf8: `getBytes()` is taken to use UTF-8, the platform default since Java 18. Characters are single code points, so surrogate pairs are not modelled.
- Strings have no Unicode normalisation or case folding beyond what is stated above.

## Findings

| source | as written | input that shows it | evidently intended | confidence | as-written member | corrected member |
|---|---|---|---|---|---|---|
| frontend/src/pages/PostForm.jsx:381 | the tag slug uses `/\\s+/g` and `/[^\\w-]+/g` inside regular-expression literals; these match a backslash followed by `s`, and keep only backslashes, the letter `w` and dashes | the tag "hello world" is sent with slug "w" | spaces become one dash and everything but word characters and dashes is removed, giving "hello-world" | high; not executed | TagSlugs.AsWrittenTagSlugOfTwoWords | TagSlugs.TagSlugOfTwoWords |
| frontend/src/services/api.js:178-207 | `eject()` is called without an interceptor id, so it removes nothing; every call of `setupInterceptors` adds another pair of interceptors | a page sets up the interceptors, cleans up, and a second page sets them up; one failed request then calls the first page's `showError` and the second's | cleanup removes the interceptors it added (eject by the ids `use` returned), so one failure notifies once | high; not executed | Api.TwoPagesNotifyTwice | Api.TwoPagesNotifyOnce |
| frontend/src/components/common/Avatar.js:153-164 | the extra avatar of a group is given the name `+N`, and `getInitials` shows only the first character of a one-word name | a group of five avatars with at most three shown renders its extra avatar as "+" instead of "+2" | the extra avatar shows the whole count, "+2" | medium; not executed | Avatar.MoreAvatarShowsOnlyPlus | Avatar.CorrectedGroupShowsCount |
| frontend/src/pages/UserList.jsx:74 | after a toggle request succeeds, the list is rebuilt from the `users` of the render that started the toggle | two users, both enabled; both toggles are pressed before either request returns; after both succeed the first user still shows as enabled | each flip applies to the current list (a functional `setUsers` update), so both users show as disabled | high; not executed | UserList.OverlappingTogglesAsWritten | UserList.OverlappingTogglesOnCurrent |
| src/main/java/com/blog/comments/mapper/CommentMapper.java:17 | `toEntity` copies the request's id, so `createComment` given the id of a stored comment merges the request into that comment | comment 1 with its reply 2 on post 7; a create request with id 1 by "carl" on post 7 overwrites comment 1's content and author and deletes reply 2 as an orphan; with parent 2 the save is refused; with parent 1 comment 1 becomes its own parent and drops out of the post's tree | a created comment gets a fresh id and leaves stored comments alone | medium; not executed | CommentService.CreateAsWrittenDropsReplies | CommentService.CommentService.CreateComment |
| backend/src/main/java/com/blog/auth/service/impl/AdminServiceImpl.java:63-64 | `createUser` saves `toUser(request)`, which never sets `keycloakId`, although the identity provider's answer carries it and the column is not null and unique (User.java:23-24) | any administrator creation that the identity provider accepts: the save is refused, the identity-provider user is deleted again and the call throws | the saved row carries the identity provider's id, as `UserServiceImpl.createUser` sets it at line 45 | medium; not executed | AdminService.RequestRowRefused | AdminService.IdpRowSaved |
| frontend/src/hooks/useAuth.jsx:3 | the hook imports `exportedAPI as authAPI`, but `services/api.js` exports `usersAPI`, `postsAPI`, `commentsAPI`, `authAPI`, a default object and `setupInterceptors`, and no `exportedAPI`; every `authAPI.…` call then throws | a token is stored and the hook mounts: `authAPI.setAuthToken` throws, the catch removes the token and nobody is signed in; a login always fails; a logout clears the token and throws before navigating to /login | the hook is given an API object with the five methods it calls (`setAuthToken`, `getCurrentUser`, `login`, `register`, `clearAuthToken`), so a stored token loads its user, a login signs in and a logout shows the login page; the exported `authAPI` has only `login` and `getCurrentUser`, so importing it by its right name would still throw in the other three | high; not executed | Auth.MountWithStoredToken | Auth.MountWithApi |
