/** The post editor page of the front end (frontend/src/pages/PostForm.jsx): its tag list, its
    category selection, the categories it reads back from a post being edited, the checks on an
    uploaded image, the validation before submitting and the body it submits. The awaited calls
    to the HTTP client are split at their `await`: the answer is passed in. Rendering, the file
    reader and the console logging are not modelled. */
module PostForm {
  import opened Wrappers
  import opened Js
  import Helpers
  import TagSlugs

  /** No element occurs twice. */
  predicate NoDup<T(==)>(s: seq<T>) {
    forall i, j :: 0 <= i < j < |s| ==> s[i] != s[j]
  }

  /** `v.k` on a value that is neither `null` nor `undefined`: an object's property, and
      `undefined` for the properties of the other values this code reads. */
  function Prop(v: Value, k: string): (r: Value)
    ensures v.Rec? ==> r == Get(v.fields, k)
    ensures !v.Rec? ==> r == Undefined
  {
    if v.Rec? then Get(v.fields, k) else Undefined
  }

  /** The text of a number in a template literal. */
  function NumberText(v: Value): string {
    if v.Num? then Helpers.IntToString(v.n) else "NaN"
  }

  // ---------------------------------------------------------------- tags

  /** `tags.filter(tag => tag !== tagToRemove)`. */
  function RemoveAll(tags: seq<Value>, t: Value): (r: seq<Value>)
    ensures |r| <= |tags|
    ensures t !in r
  {
    if tags == [] then []
    else (if tags[0] == t then [] else [tags[0]]) + RemoveAll(tags[1..], t)
  }

  /** Removing distributes over concatenation: the remaining tags keep their order. */
  lemma {:induction false} RemoveAllAppend(a: seq<Value>, b: seq<Value>, t: Value)
    ensures RemoveAll(a + b, t) == RemoveAll(a, t) + RemoveAll(b, t)
  {
    if a == [] {
      assert a + b == b;
    } else {
      assert (a + b)[1..] == a[1..] + b;
      RemoveAllAppend(a[1..], b, t);
    }
  }

  /** Removing a tag that is absent changes nothing. */
  lemma {:induction false} RemoveAbsent(tags: seq<Value>, t: Value)
    requires t !in tags
    ensures RemoveAll(tags, t) == tags
  {
    if tags != [] {
      RemoveAbsent(tags[1..], t);
    }
  }

  /** The remaining tags are exactly the tags other than the removed one. */
  lemma {:induction false} RemoveAllMembers(tags: seq<Value>, t: Value)
    ensures forall x :: x in RemoveAll(tags, t) <==> x in tags && x != t
  {
    if tags != [] {
      RemoveAllMembers(tags[1..], t);
      assert tags == [tags[0]] + tags[1..];
    }
  }

  /** Removing keeps a list without duplicates without duplicates. */
  lemma {:induction false} RemoveAllNoDup(tags: seq<Value>, t: Value)
    requires NoDup(tags)
    ensures NoDup(RemoveAll(tags, t))
  {
    if tags != [] {
      RemoveAllNoDup(tags[1..], t);
      var rest := RemoveAll(tags[1..], t);
      RemoveAllMembers(tags[1..], t);
      assert tags[0] !in tags[1..];
      assert tags[0] !in rest;
    }
  }

  /** Adding a new tag and removing it again gives the list back. */
  lemma AddThenRemove(tags: seq<Value>, t: Value)
    requires t !in tags
    ensures RemoveAll(tags + [t], t) == tags
  {
    RemoveAllAppend(tags, [t], t);
    RemoveAbsent(tags, t);
    assert RemoveAll([t], t) == [];
  }

  // ---------------------------------------------------------------- categories

  /** An option of the category selector: its `value` and its `label` (a keyword in Dafny). */
  datatype CategoryOption = CategoryOption(value: Value, caption: Value)

  /** `available.find(c => Number(c.value) === id)`. */
  function FindById(available: seq<CategoryOption>, id: Value): (r: Option<CategoryOption>)
    ensures r.Some? ==> r.value in available && ToNumber(r.value.value) == id
    ensures r.Some? ==> (exists i :: 0 <= i < |available| && available[i] == r.value &&
                          forall j :: 0 <= j < i ==> ToNumber(available[j].value) != id)
    ensures r.None? ==> forall o :: o in available ==> ToNumber(o.value) != id
  {
    if available == [] then None
    else if ToNumber(available[0].value) == id then Some(available[0])
    else
      var rest := FindById(available[1..], id);
      if rest.Some? then
        var i :| 0 <= i < |available[1..]| && available[1..][i] == rest.value &&
          forall j :: 0 <= j < i ==> ToNumber(available[1..][j].value) != id;
        assert available[i + 1] == rest.value;
        assert forall j :: 0 <= j < i + 1 ==> ToNumber(available[j].value) != id by {
          forall j | 0 < j < i + 1 ensures ToNumber(available[j].value) != id {
            assert available[j] == available[1..][j - 1];
          }
        }
        rest
      else rest
  }

  /** `available.find(ac => ac.label === name)`. */
  function FindByLabel(available: seq<CategoryOption>, name: string): (r: Option<CategoryOption>)
    ensures r.Some? ==> r.value in available && r.value.caption == Str(name)
    ensures r.Some? ==> (exists i :: 0 <= i < |available| && available[i] == r.value &&
                          forall j :: 0 <= j < i ==> available[j].caption != Str(name))
    ensures r.None? ==> forall o :: o in available ==> o.caption != Str(name)
  {
    if available == [] then None
    else if available[0].caption == Str(name) then Some(available[0])
    else
      var rest := FindByLabel(available[1..], name);
      if rest.Some? then
        var i :| 0 <= i < |available[1..]| && available[1..][i] == rest.value &&
          forall j :: 0 <= j < i ==> available[1..][j].caption != Str(name);
        assert available[i + 1] == rest.value;
        assert forall j :: 0 <= j < i + 1 ==> available[j].caption != Str(name) by {
          forall j | 0 < j < i + 1 ensures available[j].caption != Str(name) {
            assert available[j] == available[1..][j - 1];
          }
        }
        rest
      else rest
  }

  /** The id one element of a post's categories stands for in the edit-load loop: a positive
      numeric `id` of an object, the numeric value of the option labelled by a name, or a
      positive number. */
  function CategoryIdOf(cat: Value, available: seq<CategoryOption>): (r: Option<Value>)
    ensures cat.Rec? ==> (r.Some? <==> Truthy(Get(cat.fields, "id")) && IsPositive(ToNumber(Get(cat.fields, "id"))))
    ensures cat.Rec? && r.Some? ==> r.value == ToNumber(Get(cat.fields, "id"))
    ensures cat.Str? ==> (r.Some? <==> FindByLabel(available, cat.s).Some?)
    ensures cat.Str? && r.Some? ==> r.value == ToNumber(FindByLabel(available, cat.s).value.value)
    ensures cat.Num? ==> (r.Some? <==> cat.n > 0) && (r.Some? ==> r.value == cat)
    ensures !cat.Rec? && !cat.Str? && !cat.Num? ==> r.None?
  {
    match cat
    case Rec(m) =>
      if Truthy(Get(m, "id")) && IsPositive(ToNumber(Get(m, "id"))) then Some(ToNumber(Get(m, "id"))) else None
    case Str(name) =>
      (match FindByLabel(available, name)
       case Some(o) => Some(ToNumber(o.value))
       case None => None)
    case Num(n) => if n > 0 then Some(cat) else None
    case _ => None
  }

  /** The option the edit-load loop looks up for one element of a post's categories: by id for
      an object with a positive id or a positive number, by label for a name. */
  function LookedUpOption(cat: Value, available: seq<CategoryOption>): (r: Option<CategoryOption>)
    ensures r.Some? ==> r.value in available && CategoryIdOf(cat, available) == Some(ToNumber(r.value.value))
    ensures CategoryIdOf(cat, available).Some? && CategoryIdOf(cat, available).value in Numbers(available) ==> r.Some?
  {
    match cat
    case Rec(m) =>
      if Truthy(Get(m, "id")) && IsPositive(ToNumber(Get(m, "id"))) then FindById(available, ToNumber(Get(m, "id"))) else None
    case Str(name) => FindByLabel(available, name)
    case Num(n) => if n > 0 then FindById(available, cat) else None
    case _ => None
  }

  /** The numbers of some options. */
  function Numbers(options: seq<CategoryOption>): (r: set<Value>)
    ensures forall o :: o in options ==> ToNumber(o.value) in r
    ensures forall x :: x in r ==> exists o :: o in options && ToNumber(o.value) == x
  {
    set o | o in options :: ToNumber(o.value)
  }

  /** No two available options carry the same number. */
  predicate DistinctNumbers(available: seq<CategoryOption>) {
    forall i, j :: 0 <= i < j < |available| ==> ToNumber(available[i].value) != ToNumber(available[j].value)
  }

  /** An id read back from an object or a number is positive; one read back from a name is the
      number of an available option. */
  lemma CategoryIdOfPositive(cat: Value, available: seq<CategoryOption>)
    requires forall o :: o in available ==> IsPositive(ToNumber(o.value))
    requires CategoryIdOf(cat, available).Some?
    ensures IsPositive(CategoryIdOf(cat, available).value)
  {
  }

  /** The loop's callback for one element: the id the element stands for and the option looked
      up for it. An object adds its id each time; a name or a number is added only when its id
      is not listed yet, and a name's option only then. */
  function AddStep(cat: Value, available: seq<CategoryOption>, ids: seq<Value>, found: seq<CategoryOption>)
    : (seq<Value>, seq<CategoryOption>)
  {
    match cat
    case Rec(m) =>
      if Truthy(Get(m, "id")) && IsPositive(ToNumber(Get(m, "id"))) then
        var numId := ToNumber(Get(m, "id"));
        (ids + [numId], match FindById(available, numId) case Some(o) => found + [o] case None => found)
      else (ids, found)
    case Str(name) =>
      (match FindByLabel(available, name)
       case Some(o) => if ToNumber(o.value) !in ids then (ids + [ToNumber(o.value)], found + [o]) else (ids, found)
       case None => (ids, found))
    case Num(n) =>
      if n > 0 && cat !in ids then
        (ids + [cat], match FindById(available, cat) case Some(o) => found + [o] case None => found)
      else (ids, found)
    case _ => (ids, found)
  }

  /** One step adds at most the element's id and at most its option, and always its id; a name
      or a number adds no duplicate id; and when every listed id that an option carries has an
      option of that number gathered, this stays so and the element's option number is gathered. */
  lemma AddStepFacts(cat: Value, available: seq<CategoryOption>, ids: seq<Value>, found: seq<CategoryOption>)
    ensures var r := AddStep(cat, available, ids, found);
      && (r.0 == ids || (CategoryIdOf(cat, available).Some? && r.0 == ids + [CategoryIdOf(cat, available).value]))
      && (CategoryIdOf(cat, available).Some? ==> CategoryIdOf(cat, available).value in r.0)
      && (r.1 == found || (LookedUpOption(cat, available).Some? && r.1 == found + [LookedUpOption(cat, available).value]))
      && (!cat.Rec? && NoDup(ids) ==> NoDup(r.0))
      && ((forall x :: x in ids && x in Numbers(available) ==> x in Numbers(found)) ==>
           (forall x :: x in r.0 && x in Numbers(available) ==> x in Numbers(r.1))
           && (LookedUpOption(cat, available).Some? ==> ToNumber(LookedUpOption(cat, available).value.value) in Numbers(r.1)))
  {
  }

  /** The ids and options the loop has gathered after the elements `cats`. */
  function Gathered(cats: seq<Value>, available: seq<CategoryOption>): (seq<Value>, seq<CategoryOption>)
    decreases |cats|
  {
    if cats == [] then ([], [])
    else
      var before := Gathered(cats[..|cats| - 1], available);
      AddStep(cats[|cats| - 1], available, before.0, before.1)
  }

  /** Every gathered id is the one some element stands for, and every element's id is gathered;
      names and numbers gather no duplicate. */
  lemma {:induction false} GatheredIds(cats: seq<Value>, available: seq<CategoryOption>)
    ensures forall x :: x in Gathered(cats, available).0 ==> exists c :: c in cats && CategoryIdOf(c, available) == Some(x)
    ensures forall c :: c in cats && CategoryIdOf(c, available).Some? ==> CategoryIdOf(c, available).value in Gathered(cats, available).0
    ensures (forall c :: c in cats ==> !c.Rec?) ==> NoDup(Gathered(cats, available).0)
    decreases |cats|
  {
    if cats != [] {
      var init, last := cats[..|cats| - 1], cats[|cats| - 1];
      assert cats == init + [last];
      GatheredIds(init, available);
      AddStepFacts(last, available, Gathered(init, available).0, Gathered(init, available).1);
    }
  }

  /** Every gathered option is the one looked up for some element; an option of the number of
      every element's option is gathered. */
  lemma {:induction false} GatheredOptions(cats: seq<Value>, available: seq<CategoryOption>)
    ensures forall o :: o in Gathered(cats, available).1 ==> o in available
    ensures forall o :: o in Gathered(cats, available).1 ==> exists c :: c in cats && LookedUpOption(c, available) == Some(o)
    ensures forall x :: x in Gathered(cats, available).0 && x in Numbers(available) ==> x in Numbers(Gathered(cats, available).1)
    ensures forall c :: c in cats && LookedUpOption(c, available).Some? ==>
      ToNumber(LookedUpOption(c, available).value.value) in Numbers(Gathered(cats, available).1)
    decreases |cats|
  {
    if cats != [] {
      var init, last := cats[..|cats| - 1], cats[|cats| - 1];
      assert cats == init + [last];
      GatheredOptions(init, available);
      var before := Gathered(init, available);
      AddStepFacts(last, available, before.0, before.1);
      var after := Gathered(cats, available);
      assert Numbers(before.1) <= Numbers(after.1);
    }
  }

  /** When no two available options carry the same number, the option looked up for every
      element is itself gathered. */
  lemma GatheredDistinct(cats: seq<Value>, available: seq<CategoryOption>)
    requires DistinctNumbers(available)
    ensures forall c :: c in cats && LookedUpOption(c, available).Some? ==> LookedUpOption(c, available).value in Gathered(cats, available).1
  {
    GatheredOptions(cats, available);
    forall c | c in cats && LookedUpOption(c, available).Some?
      ensures LookedUpOption(c, available).value in Gathered(cats, available).1
    {
      var o := LookedUpOption(c, available).value;
      var o' :| o' in Gathered(cats, available).1 && ToNumber(o'.value) == ToNumber(o.value);
      var i :| 0 <= i < |available| && available[i] == o;
      var j :| 0 <= j < |available| && available[j] == o';
      assert i == j;
    }
  }

  /** The edit-load loop over `post.categories`: the ids of the post's categories and the
      options found for them. A `null` element throws, as `typeof null` is "object" and its
      `id` cannot be read. A name or a number adds its id only once; an object adds its id each
      time. */
  method LoadPostCategories(categories: Value, available: seq<CategoryOption>)
    returns (r: Result<(seq<Value>, seq<CategoryOption>), string>)
    ensures r.Err? <==> categories.Arr? && Null in categories.elems
    ensures !categories.Arr? ==> r == Ok(([], []))
    ensures r.Ok? && categories.Arr? ==> r.value == Gathered(categories.elems, available)
  {
    if !categories.Arr? {
      return Ok(([], []));
    }
    var cats := categories.elems;
    var ids: seq<Value> := [];
    var found: seq<CategoryOption> := [];
    var i := 0;
    while i < |cats|
      invariant 0 <= i <= |cats|
      invariant Null !in cats[..i]
      invariant (ids, found) == Gathered(cats[..i], available)
    {
      var cat := cats[i];
      assert cats[..i + 1] == cats[..i] + [cat];
      assert cats[..i + 1][..i] == cats[..i];
      match cat {
        case Null =>
          assert Null in cats;
          return Err("TypeError");
        case Rec(m) =>
          var id := Get(m, "id");
          if Truthy(id) && IsPositive(ToNumber(id)) {
            var numId := ToNumber(id);
            ids := ids + [numId];
            var f := FindById(available, numId);
            if f.Some? {
              found := found + [f.value];
            }
          }
        case Str(name) =>
          var f := FindByLabel(available, name);
          if f.Some? {
            var numId := ToNumber(f.value.value);
            if numId !in ids {
              ids := ids + [numId];
              found := found + [f.value];
            }
          }
        case Num(n) =>
          if n > 0 && cat !in ids {
            ids := ids + [cat];
            var f := FindById(available, cat);
            if f.Some? {
              found := found + [f.value];
            }
          }
        case _ =>
      }
      i := i + 1;
    }
    assert cats[..i] == cats;
    r := Ok((ids, found));
  }

  /** When every available option has a positive numeric value, every id read back from a
      post is positive. */
  lemma LoadedIdsPositive(cats: seq<Value>, available: seq<CategoryOption>, ids: seq<Value>)
    requires forall o :: o in available ==> IsPositive(ToNumber(o.value))
    requires forall x :: x in ids ==> exists c :: c in cats && CategoryIdOf(c, available) == Some(x)
    ensures forall x :: x in ids ==> IsPositive(x)
  {
    forall x | x in ids
      ensures IsPositive(x)
    {
      var c :| c in cats && CategoryIdOf(c, available) == Some(x);
      CategoryIdOfPositive(c, available);
    }
  }

  /** `option && option.value`: the options `handleCategoryChange` keeps. */
  predicate KeptOption(option: Value) {
    Truthy(option) && Truthy(Prop(option, "value"))
  }

  /** A kept option as `handleCategoryChange` stores it: its value made a number and its label
      defaulted to "Category <value>". */
  function OptionOf(option: Value): (o: CategoryOption)
    ensures o.value.Num? || o.value.NaN?
    ensures Truthy(o.caption)
  {
    var value := ToNumber(Prop(option, "value"));
    CategoryOption(value, if Truthy(Prop(option, "label")) then Prop(option, "label") else Str("Category " + NumberText(value)))
  }

  /** The number of kept options. */
  function CountKept(selected: seq<Value>): (n: nat)
    ensures n <= |selected|
  {
    if selected == [] then 0 else (if KeptOption(selected[0]) then 1 else 0) + CountKept(selected[1..])
  }

  /** The options `handleCategoryChange` keeps, converted, in order. */
  function ValidCategories(selected: seq<Value>): (r: seq<CategoryOption>)
    ensures |r| <= |selected|
    ensures forall i :: 0 <= i < |r| ==> r[i].value.Num? || r[i].value.NaN?
    ensures forall i :: 0 <= i < |r| ==> Truthy(r[i].caption)
  {
    if selected == [] then []
    else
      var rest := ValidCategories(selected[1..]);
      if KeptOption(selected[0]) then [OptionOf(selected[0])] + rest else rest
  }

  /** There are as many results as kept options. */
  lemma {:induction false} ValidCategoriesLength(selected: seq<Value>)
    ensures |ValidCategories(selected)| == CountKept(selected)
  {
    if selected != [] {
      ValidCategoriesLength(selected[1..]);
    }
  }

  /** The option kept after `n` earlier kept options becomes the `n`-th result. */
  lemma {:induction false} KeptOptionAt(selected: seq<Value>, i: nat)
    requires i < |selected| && KeptOption(selected[i])
    ensures CountKept(selected[..i]) < |ValidCategories(selected)|
    ensures ValidCategories(selected)[CountKept(selected[..i])] == OptionOf(selected[i])
  {
    if i == 0 {
      assert selected[..i] == [];
    } else {
      var tail := selected[1..];
      KeptOptionAt(tail, i - 1);
      assert selected[..i][1..] == tail[..i - 1];
      assert tail[i - 1] == selected[i];
    }
  }

  /** `o` is the conversion of some kept option. */
  ghost predicate FromKept(selected: seq<Value>, o: CategoryOption) {
    exists i :: 0 <= i < |selected| && KeptOption(selected[i]) && o == OptionOf(selected[i])
  }

  /** A conversion of a kept option of the tail is one of the whole selection. */
  lemma FromKeptOfTail(selected: seq<Value>, o: CategoryOption)
    requires selected != [] && FromKept(selected[1..], o)
    ensures FromKept(selected, o)
  {
    var j :| 0 <= j < |selected[1..]| && KeptOption(selected[1..][j]) && o == OptionOf(selected[1..][j]);
    assert selected[j + 1] == selected[1..][j];
  }

  /** Every result comes from a kept option. */
  lemma {:induction false} ResultFromKept(selected: seq<Value>, k: nat)
    requires k < |ValidCategories(selected)|
    ensures FromKept(selected, ValidCategories(selected)[k])
  {
    var tail := selected[1..];
    var rest := ValidCategories(tail);
    if KeptOption(selected[0]) {
      assert ValidCategories(selected) == [OptionOf(selected[0])] + rest;
      if k == 0 {
        assert ValidCategories(selected)[0] == OptionOf(selected[0]);
      } else {
        ResultFromKept(tail, k - 1);
        FromKeptOfTail(selected, rest[k - 1]);
      }
    } else {
      assert ValidCategories(selected) == rest;
      ResultFromKept(tail, k);
      FromKeptOfTail(selected, rest[k]);
    }
  }

  /** One result per kept option and nothing else, in the order of the options. */
  lemma ValidCategoriesKeepInOrder(selected: seq<Value>)
    ensures |ValidCategories(selected)| == CountKept(selected)
    ensures forall i :: 0 <= i < |selected| && KeptOption(selected[i]) ==>
      CountKept(selected[..i]) < |ValidCategories(selected)| &&
      ValidCategories(selected)[CountKept(selected[..i])] == OptionOf(selected[i])
    ensures forall k :: 0 <= k < |ValidCategories(selected)| ==> FromKept(selected, ValidCategories(selected)[k])
  {
    ValidCategoriesLength(selected);
    forall i | 0 <= i < |selected| && KeptOption(selected[i])
      ensures CountKept(selected[..i]) < |ValidCategories(selected)|
      ensures ValidCategories(selected)[CountKept(selected[..i])] == OptionOf(selected[i])
    {
      KeptOptionAt(selected, i);
    }
    forall k | 0 <= k < |ValidCategories(selected)|
      ensures FromKept(selected, ValidCategories(selected)[k])
    {
      ResultFromKept(selected, k);
    }
  }

  /** The ids `handleCategoryChange` stores are exactly the positive numeric values of the kept
      options. */
  lemma SelectedIdsArePositiveValues(selected: seq<Value>)
    ensures forall x :: x in PositiveIds(ValidCategories(selected)) <==>
      IsPositive(x) && exists i :: 0 <= i < |selected| && KeptOption(selected[i]) && ToNumber(Prop(selected[i], "value")) == x
  {
    var r := ValidCategories(selected);
    forall x | IsPositive(x) && exists i :: 0 <= i < |selected| && KeptOption(selected[i]) && ToNumber(Prop(selected[i], "value")) == x
      ensures x in PositiveIds(r)
    {
      var i :| 0 <= i < |selected| && KeptOption(selected[i]) && ToNumber(Prop(selected[i], "value")) == x;
      KeptOptionAt(selected, i);
      assert r[CountKept(selected[..i])].value == x;
    }
    forall x | x in PositiveIds(r)
      ensures exists i :: 0 <= i < |selected| && KeptOption(selected[i]) && ToNumber(Prop(selected[i], "value")) == x
    {
      var k :| 0 <= k < |r| && r[k].value == x && IsPositive(x);
      ResultFromKept(selected, k);
    }
  }

  /** `validCategories.map(opt => opt.value).filter(id => id > 0)`. */
  function PositiveIds(options: seq<CategoryOption>): (r: seq<Value>)
    ensures |r| <= |options|
    ensures forall x :: x in r ==> IsPositive(x)
    ensures forall x :: x in r <==> exists i :: 0 <= i < |options| && options[i].value == x && IsPositive(x)
  {
    if options == [] then []
    else
      var rest := PositiveIds(options[1..]);
      assert forall i :: 1 <= i < |options| ==> options[i] == options[1..][i - 1];
      (if IsPositive(options[0].value) then [options[0].value] else []) + rest
  }

  /** The selector's argument as a list: an array, or nothing. */
  function SelectedList(selectedOptions: Value): seq<Value> {
    if selectedOptions.Arr? then selectedOptions.elems else []
  }

  // ---------------------------------------------------------------- image upload

  /** The file chosen for upload: its MIME type and its size in bytes. */
  datatype ImageFile = ImageFile(mimeType: string, size: int)

  const MaxImageSize := 500 * 1024

  datatype ImageCheck = NoFile | Rejected(message: string) | Accepted

  predicate StartsWith(s: string, prefix: string) {
    |prefix| <= |s| && s[..|prefix|] == prefix
  }

  /** The checks of `handleImageChange` before the file is read. */
  function CheckImage(file: Option<ImageFile>): (r: ImageCheck)
    ensures r == Accepted <==>
      file.Some? && StartsWith(file.value.mimeType, "image/") && file.value.size <= 512000
    ensures file.Some? && !StartsWith(file.value.mimeType, "image/") ==>
      r == Rejected("Please upload a valid image file (JPEG, PNG, GIF, etc.)")
    ensures file.Some? && StartsWith(file.value.mimeType, "image/") && file.value.size > 512000 ==>
      r == Rejected("Image size should not exceed 500KB")
    ensures file.None? <==> r == NoFile
  {
    match file
    case None => NoFile
    case Some(f) =>
      if !StartsWith(f.mimeType, "image/") then Rejected("Please upload a valid image file (JPEG, PNG, GIF, etc.)")
      else if f.size > MaxImageSize then Rejected("Image size should not exceed 500KB")
      else Accepted
  }

  // ---------------------------------------------------------------- submitting

  /** `!formData.title.trim() || !formData.content.trim()`. */
  predicate BlankTitleOrContent(title: string, content: string) {
    JsTrim(title) == "" || JsTrim(content) == ""
  }

  /** The text a value has as a property key, for the values whose text this code can meet;
      an array's text is not modelled. */
  function KeyOf(v: Value): (r: Option<string>)
    ensures r.None? <==> v.Arr?
    ensures v.Str? ==> r == Some(v.s)
    ensures v.Num? ==> ToNumber(Str(r.value)) == v
  {
    match v
    case Str(s) => Some(s)
    case Num(n) =>
      Helpers.NumberOfIntToString(n);
      Some(Helpers.IntToString(n))
    case NaN => Some("NaN")
    case Bool(b) => Some(if b then "true" else "false")
    case Null => Some("null")
    case Undefined => Some("undefined")
    case Rec(_) => Some("[object Object]")
    case Arr(_) => None
  }

  /** `cat && cat.id && cat.name`: a category `categoryNameToId` records, under the text of its
      name. */
  predicate NamedCategory(cat: Value) {
    Truthy(cat) && Truthy(Prop(cat, "id")) && Truthy(Prop(cat, "name")) && KeyOf(Prop(cat, "name")).Some?
  }

  function NameKey(cat: Value): string
    requires NamedCategory(cat)
  {
    KeyOf(Prop(cat, "name")).value
  }

  /** `categoryNameToId`: the id of every category with a truthy id and name, keyed by its
      name; a later category of the same name wins. */
  function NameToId(categories: seq<Value>): (r: map<string, Value>)
    ensures forall k :: k in r ==> Truthy(r[k])
  {
    if categories == [] then map[]
    else
      var init := NameToId(categories[..|categories| - 1]);
      var cat := categories[|categories| - 1];
      if NamedCategory(cat) then init[NameKey(cat) := Prop(cat, "id")] else init
  }

  /** Category `i` is the last recorded category whose name has the text `k`. */
  ghost predicate LastWithName(cats: seq<Value>, k: string, i: int) {
    && 0 <= i < |cats| && NamedCategory(cats[i]) && NameKey(cats[i]) == k
    && forall j :: i < j < |cats| && NamedCategory(cats[j]) ==> NameKey(cats[j]) != k
  }

  /** A recorded name maps to the id of the last category with that name. */
  lemma {:induction false} NameToIdEntry(cats: seq<Value>, k: string)
    requires k in NameToId(cats)
    ensures exists i :: LastWithName(cats, k, i) && NameToId(cats)[k] == Prop(cats[i], "id")
  {
    var n := |cats|;
    var init := cats[..n - 1];
    var cat := cats[n - 1];
    if NamedCategory(cat) && NameKey(cat) == k {
      assert LastWithName(cats, k, n - 1);
    } else {
      NameToIdEntry(init, k);
      var i :| LastWithName(init, k, i) && NameToId(init)[k] == Prop(init[i], "id");
      assert init[i] == cats[i];
      forall j | i < j < n && NamedCategory(cats[j])
        ensures NameKey(cats[j]) != k
      {
        if j < n - 1 {
          assert init[j] == cats[j];
        }
      }
      assert LastWithName(cats, k, i);
    }
  }

  /** Every category with a truthy id and name is recorded under its name. */
  lemma {:induction false} NamedCategoryRecorded(cats: seq<Value>, i: nat)
    requires i < |cats| && NamedCategory(cats[i])
    ensures NameKey(cats[i]) in NameToId(cats)
  {
    var n := |cats|;
    if i < n - 1 {
      NamedCategoryRecorded(cats[..n - 1], i);
    }
  }

  /** `categoryNameToId` holds exactly the names of the categories with a truthy id and name,
      each mapped to the id of the last category of that name. */
  lemma NameToIdLastWins(cats: seq<Value>)
    ensures forall i :: 0 <= i < |cats| && NamedCategory(cats[i]) ==> NameKey(cats[i]) in NameToId(cats)
    ensures forall k :: k in NameToId(cats) ==>
      exists i :: LastWithName(cats, k, i) && NameToId(cats)[k] == Prop(cats[i], "id")
  {
    forall i | 0 <= i < |cats| && NamedCategory(cats[i])
      ensures NameKey(cats[i]) in NameToId(cats)
    {
      NamedCategoryRecorded(cats, i);
    }
    forall k | k in NameToId(cats)
      ensures exists i :: LastWithName(cats, k, i) && NameToId(cats)[k] == Prop(cats[i], "id")
    {
      NameToIdEntry(cats, k);
    }
  }

  /** `getCategoryId(cat)`: a number as it is, an object with an id its id as a number, a known
      name its id, and `null` otherwise; reading the id of `null` throws. */
  function GetCategoryId(cat: Value, nameToId: map<string, Value>): (r: Result<Value, string>)
    ensures r.Err? <==> cat.Null?
    ensures cat.Num? || cat.NaN? ==> r == Ok(cat)
    ensures cat.Rec? && Truthy(Get(cat.fields, "id")) ==> r == Ok(ToNumber(Get(cat.fields, "id")))
    ensures cat.Str? && cat.s in nameToId ==> r == Ok(nameToId[cat.s])
    ensures cat.Str? && cat.s !in nameToId ==> r == Ok(Null)
    ensures r.Ok? ==> r.value.Num? || r.value.NaN? || r.value.Null? || r.value in nameToId.Values
  {
    match cat
    case Num(_) => Ok(cat)
    case NaN => Ok(cat)
    case Null => Err("TypeError")
    case Rec(m) => if Truthy(Get(m, "id")) then Ok(ToNumber(Get(m, "id"))) else LookUpName(cat, nameToId)
    case _ => LookUpName(cat, nameToId)
  }

  /** `categoryNameToId[cat] || null`. */
  function LookUpName(cat: Value, nameToId: map<string, Value>): (r: Result<Value, string>)
    ensures r.Ok?
    ensures r.value.Null? || r.value in nameToId.Values
  {
    var key := KeyOf(cat);
    if key.Some? && key.value in nameToId then Ok(nameToId[key.value]) else Ok(Null)
  }

  /** The id `getCategoryId` gives, `null` where it throws. */
  function IdOrNull(cat: Value, nameToId: map<string, Value>): Value {
    match GetCategoryId(cat, nameToId)
    case Ok(id) => id
    case Err(_) => Null
  }

  /** The number of categories with a non-null id. */
  function CountIds(cats: seq<Value>, nameToId: map<string, Value>): (n: nat)
    ensures n <= |cats|
  {
    if cats == [] then 0 else (if IdOrNull(cats[0], nameToId) != Null then 1 else 0) + CountIds(cats[1..], nameToId)
  }

  /** `cats.map(getCategoryId).filter(id => id !== null)`. */
  function CategoryIds(cats: seq<Value>, nameToId: map<string, Value>): (r: Result<seq<Value>, string>)
    ensures r.Err? <==> Null in cats
    ensures r.Ok? ==> |r.value| <= |cats| && Null !in r.value
  {
    if cats == [] then Ok([])
    else
      match GetCategoryId(cats[0], nameToId)
      case Err(e) => Err(e)
      case Ok(id) =>
        match CategoryIds(cats[1..], nameToId)
        case Err(e) =>
          assert Null in cats[1..];
          Err(e)
        case Ok(rest) =>
          assert cats == [cats[0]] + cats[1..];
          Ok((if id == Null then [] else [id]) + rest)
  }

  /** There are as many submitted ids as categories with a non-null id. */
  lemma {:induction false} CategoryIdsLength(cats: seq<Value>, nameToId: map<string, Value>)
    requires Null !in cats
    ensures CategoryIds(cats, nameToId).Ok? && |CategoryIds(cats, nameToId).value| == CountIds(cats, nameToId)
  {
    if cats != [] {
      CategoryIdsLength(cats[1..], nameToId);
    }
  }

  /** The non-null id of the category after `n` earlier non-null ids is the `n`-th submitted id. */
  lemma {:induction false} CategoryIdAt(cats: seq<Value>, nameToId: map<string, Value>, i: nat)
    requires Null !in cats && i < |cats| && IdOrNull(cats[i], nameToId) != Null
    ensures CategoryIds(cats, nameToId).Ok?
    ensures CountIds(cats[..i], nameToId) < |CategoryIds(cats, nameToId).value|
    ensures CategoryIds(cats, nameToId).value[CountIds(cats[..i], nameToId)] == IdOrNull(cats[i], nameToId)
  {
    if i == 0 {
      assert cats[..i] == [];
    } else {
      var tail := cats[1..];
      CategoryIdAt(tail, nameToId, i - 1);
      assert cats[..i][1..] == tail[..i - 1];
      assert tail[i - 1] == cats[i];
    }
  }

  /** `id` is the non-null id of one of the categories. */
  ghost predicate IdOfSome(cats: seq<Value>, nameToId: map<string, Value>, id: Value) {
    exists i :: 0 <= i < |cats| && IdOrNull(cats[i], nameToId) == id
  }

  /** Every submitted id is the id of one of the categories. */
  lemma {:induction false} SubmittedIdFromCategory(cats: seq<Value>, nameToId: map<string, Value>, k: nat)
    requires CategoryIds(cats, nameToId).Ok? && k < |CategoryIds(cats, nameToId).value|
    ensures IdOfSome(cats, nameToId, CategoryIds(cats, nameToId).value[k])
  {
    var tail := cats[1..];
    var id0 := IdOrNull(cats[0], nameToId);
    assert cats == [cats[0]] + tail;
    if id0 != Null && k == 0 {
      assert CategoryIds(cats, nameToId).value[0] == id0;
    } else {
      var k' := if id0 != Null then k - 1 else k;
      assert CategoryIds(cats, nameToId).value[k] == CategoryIds(tail, nameToId).value[k'];
      SubmittedIdFromCategory(tail, nameToId, k');
      var j :| 0 <= j < |tail| && IdOrNull(tail[j], nameToId) == CategoryIds(tail, nameToId).value[k'];
      assert cats[j + 1] == tail[j];
    }
  }

  /** Without a `null` category the submitted ids are the non-null `getCategoryId` values of
      the categories, one per category and in their order. */
  lemma CategoryIdsInOrder(cats: seq<Value>, nameToId: map<string, Value>)
    requires Null !in cats
    ensures CategoryIds(cats, nameToId).Ok?
    ensures |CategoryIds(cats, nameToId).value| == CountIds(cats, nameToId)
    ensures forall i :: 0 <= i < |cats| && IdOrNull(cats[i], nameToId) != Null ==>
      CountIds(cats[..i], nameToId) < |CategoryIds(cats, nameToId).value| &&
      CategoryIds(cats, nameToId).value[CountIds(cats[..i], nameToId)] == IdOrNull(cats[i], nameToId)
    ensures forall k :: 0 <= k < |CategoryIds(cats, nameToId).value| ==>
      IdOfSome(cats, nameToId, CategoryIds(cats, nameToId).value[k])
  {
    CategoryIdsLength(cats, nameToId);
    forall i | 0 <= i < |cats| && IdOrNull(cats[i], nameToId) != Null
      ensures CountIds(cats[..i], nameToId) < |CategoryIds(cats, nameToId).value|
      ensures CategoryIds(cats, nameToId).value[CountIds(cats[..i], nameToId)] == IdOrNull(cats[i], nameToId)
    {
      CategoryIdAt(cats, nameToId, i);
    }
    forall k | 0 <= k < |CategoryIds(cats, nameToId).value|
      ensures IdOfSome(cats, nameToId, CategoryIds(cats, nameToId).value[k])
    {
      SubmittedIdFromCategory(cats, nameToId, k);
    }
  }

  /** `originalPost?.categories`. */
  function OriginalCategories(originalPost: Value): Value {
    if originalPost.Undefined? || originalPost.Null? then Undefined else Prop(originalPost, "categories")
  }

  /** The categories submitted: the form's when it has any; else, when editing a post whose
      categories are set, their ids (a value of theirs that is not an array cannot be mapped and
      throws); else none. */
  function CategoriesToSubmit(formCategories: seq<Value>, isEditMode: bool, originalPost: Value,
                              nameToId: map<string, Value>): (r: Result<seq<Value>, string>)
    ensures |formCategories| > 0 ==> r == CategoryIds(formCategories, nameToId)
    ensures |formCategories| == 0 && isEditMode && OriginalCategories(originalPost).Arr? && Truthy(OriginalCategories(originalPost)) ==>
      r == CategoryIds(OriginalCategories(originalPost).elems, nameToId)
    ensures |formCategories| == 0 && isEditMode && !OriginalCategories(originalPost).Arr? && Truthy(OriginalCategories(originalPost)) ==>
      r.Err?
    ensures |formCategories| == 0 && !(isEditMode && Truthy(OriginalCategories(originalPost))) ==> r == Ok([])
  {
    if |formCategories| > 0 then CategoryIds(formCategories, nameToId)
    else
      var original := OriginalCategories(originalPost);
      if isEditMode && Truthy(original) then
        if original.Arr? then CategoryIds(original.elems, nameToId) else Err("TypeError")
      else Ok([])
  }

  /** Editing a post without choosing categories submits the post's own category ids again,
      when they are positive numbers. */
  lemma EditKeepsOriginalCategories(originalPost: Obj, nameToId: map<string, Value>)
    requires Get(originalPost, "categories").Arr?
    requires forall x :: x in Get(originalPost, "categories").elems ==> IsPositive(x)
    ensures CategoriesToSubmit([], true, Rec(originalPost), nameToId) == Ok(Get(originalPost, "categories").elems)
  {
    PositiveIdsSubmitted(Get(originalPost, "categories").elems, nameToId);
  }

  /** Positive ids, as `handleCategoryChange` stores them, are submitted as they are. */
  lemma {:induction false} PositiveIdsSubmitted(ids: seq<Value>, nameToId: map<string, Value>)
    requires forall x :: x in ids ==> IsPositive(x)
    ensures CategoryIds(ids, nameToId) == Ok(ids)
  {
    if ids != [] {
      PositiveIdsSubmitted(ids[1..], nameToId);
      assert ids[0] in ids;
      assert ids[0].Num? && GetCategoryId(ids[0], nameToId) == Ok(ids[0]);
      assert ids == [ids[0]] + ids[1..];
    }
  }

  /** The category ids chosen in the selector reach the submitted body unchanged. */
  lemma SelectedCategoriesSubmitted(selectedOptions: Value, isEditMode: bool, originalPost: Value,
                                    nameToId: map<string, Value>)
    requires |PositiveIds(ValidCategories(SelectedList(selectedOptions)))| > 0
    ensures var ids := PositiveIds(ValidCategories(SelectedList(selectedOptions)));
      CategoriesToSubmit(ids, isEditMode, originalPost, nameToId) == Ok(ids)
  {
    PositiveIdsSubmitted(PositiveIds(ValidCategories(SelectedList(selectedOptions))), nameToId);
  }

  /** One tag of the submitted body, as the page builds it: its name, the slug its two
      replacements give as written, and an empty description; a tag that is not a string
      throws at `toLowerCase`. */
  function TagPayload(tag: Value): (r: Result<Value, string>)
    ensures r.Err? <==> !tag.Str?
    ensures r.Ok? ==> r.value.Rec? && r.value.fields.Keys == {"name", "slug", "description"}
    ensures r.Ok? ==> r.value.fields["name"] == tag && r.value.fields["description"] == Str("")
    ensures r.Ok? ==> r.value.fields["slug"] == Str(TagSlugs.AsWrittenTagSlug(tag.s))
  {
    if tag.Str? then Ok(Rec(map["name" := tag, "slug" := Str(TagSlugs.AsWrittenTagSlug(tag.s)), "description" := Str("")]))
    else Err("TypeError")
  }

  /** The same tag with the slug the two replacements are meant to give. */
  function TagPayloadIntended(tag: Value): (r: Result<Value, string>)
    ensures r.Err? <==> !tag.Str?
    ensures r.Ok? ==> r.value.Rec? && r.value.fields.Keys == {"name", "slug", "description"}
    ensures r.Ok? ==> r.value.fields["name"] == tag && r.value.fields["description"] == Str("")
    ensures r.Ok? ==> r.value.fields["slug"] == Str(TagSlugs.TagSlug(tag.s))
  {
    if tag.Str? then Ok(Rec(map["name" := tag, "slug" := Str(TagSlugs.TagSlug(tag.s)), "description" := Str("")]))
    else Err("TypeError")
  }

  /** The tag "hello world" is submitted with the slug "w"; the intended slug is
      "hello-world". */
  lemma HelloWorldTagPayloads()
    ensures TagPayload(Str("hello world")).value.fields["slug"] == Str("w")
    ensures TagPayloadIntended(Str("hello world")).value.fields["slug"] == Str("hello-world")
    ensures TagPayload(Str("hello world")) != TagPayloadIntended(Str("hello world"))
  {
    TagSlugs.AsWrittenTagSlugOfTwoWords();
    TagSlugs.TagSlugOfTwoWords();
  }

  function TagPayloads(tags: seq<Value>): (r: Result<seq<Value>, string>)
    ensures r.Ok? <==> forall i :: 0 <= i < |tags| ==> tags[i].Str?
    ensures r.Ok? ==> |r.value| == |tags|
    ensures r.Ok? ==> forall i :: 0 <= i < |tags| ==> r.value[i] == TagPayload(tags[i]).value
  {
    if tags == [] then Ok([])
    else if !tags[0].Str? then Err("TypeError")
    else
      assert forall i :: 1 <= i < |tags| ==> tags[i] == tags[1..][i - 1];
      match TagPayloads(tags[1..])
      case Err(e) => Err(e)
      case Ok(rest) => Ok([TagPayload(tags[0]).value] + rest)
  }

  /** The form's data: `formData`. */
  datatype FormData = FormData(title: string, slug: string, excerpt: string, content: string,
                               featuredImage: string, imageUrl: string, published: bool,
                               categories: seq<Value>, tags: seq<Value>)

  const EmptyForm := FormData("", "", "", "", "", "", true, [], [])

  /** `postData`, the body submitted. */
  function PostData(form: FormData, isEditMode: bool, originalPost: Value, nameToId: map<string, Value>)
    : (r: Result<Obj, string>)
    ensures r.Ok? ==> r.value.Keys == {"title", "slug", "content", "excerpt", "featuredImage", "published", "categories", "tags"}
    ensures r.Ok? ==> r.value["title"] == Str(form.title) && r.value["content"] == Str(form.content)
    ensures r.Ok? ==> r.value["slug"] == Str(form.slug) && r.value["excerpt"] == Str(form.excerpt)
    ensures r.Ok? ==> r.value["published"] == Bool(form.published)
    ensures r.Ok? ==> TagPayloads(form.tags).Ok? && r.value["tags"] == Arr(TagPayloads(form.tags).value)
    ensures r.Ok? ==> |r.value["tags"].elems| == |form.tags|
    ensures r.Ok? ==> CategoriesToSubmit(form.categories, isEditMode, originalPost, nameToId).Ok?
    ensures r.Ok? && CategoriesToSubmit(form.categories, isEditMode, originalPost, nameToId).Ok? ==>
      r.value["categories"] == Arr(CategoriesToSubmit(form.categories, isEditMode, originalPost, nameToId).value)
    ensures r.Ok? ==>
      r.value["featuredImage"] == Str(if form.featuredImage != "" then form.featuredImage else form.imageUrl)
    ensures r.Err? <==>
      (CategoriesToSubmit(form.categories, isEditMode, originalPost, nameToId).Err? || TagPayloads(form.tags).Err?)
  {
    match CategoriesToSubmit(form.categories, isEditMode, originalPost, nameToId)
    case Err(e) => Err(e)
    case Ok(categories) =>
      match TagPayloads(form.tags)
      case Err(e) => Err(e)
      case Ok(tags) =>
        Ok(map["title" := Str(form.title), "slug" := Str(form.slug), "content" := Str(form.content),
               "excerpt" := Str(form.excerpt),
               "featuredImage" := Str(if form.featuredImage != "" then form.featuredImage else form.imageUrl),
               "published" := Bool(form.published), "categories" := Arr(categories), "tags" := Arr(tags)])
  }

  // ---------------------------------------------------------------- access

  /** Whether the user may edit the post: its author, or an administrator. A missing user
      throws; roles that are a string are searched as text; roles of another kind throw at
      `includes`. */
  function MayEdit(post: Obj, currentUser: Option<Obj>): (r: Result<bool, string>)
    ensures currentUser.None? ==> r.Err?
    ensures currentUser.Some? && Get(post, "authorUsername") == Get(currentUser.value, "username") ==> r == Ok(true)
    ensures currentUser.Some? && Get(currentUser.value, "roles").Arr? ==>
      r == Ok(Get(post, "authorUsername") == Get(currentUser.value, "username")
              || Str("ROLE_ADMIN") in Get(currentUser.value, "roles").elems)
    ensures currentUser.Some? && (Get(currentUser.value, "roles").Undefined? || Get(currentUser.value, "roles").Null?) ==>
      r == Ok(Get(post, "authorUsername") == Get(currentUser.value, "username"))
  {
    match currentUser
    case None => Err("TypeError")
    case Some(user) =>
      var isAuthor := Get(post, "authorUsername") == Get(user, "username");
      match Get(user, "roles")
      case Undefined => Ok(isAuthor)
      case Null => Ok(isAuthor)
      case Arr(roles) => Ok(isAuthor || Str("ROLE_ADMIN") in roles)
      case Str(s) => Ok(isAuthor || Contains(s, "ROLE_ADMIN"))
      case _ => if isAuthor then Ok(true) else Err("TypeError")
  }

  /** The outcome of the awaited save. */
  datatype SaveOutcome = Saved | SaveFailed(message: Value, status: Option<int>)

  /** The state of the editor page. */
  class PostFormState {
    var formData: FormData
    var selectedCategories: seq<CategoryOption>
    var tagInput: string
    var error: string
    var submitting: bool
    var loading: bool
    var preview: string
    /** Whether `keycloak.login()` was called. */
    var loginRequested: bool
    /** The last `navigate` target. */
    var navigation: Option<string>

    constructor()
      ensures formData == EmptyForm && selectedCategories == [] && tagInput == "" && error == ""
      ensures !submitting && !loading && preview == "" && !loginRequested && navigation.None?
    {
      formData := EmptyForm;
      selectedCategories := [];
      tagInput := "";
      error := "";
      submitting := false;
      loading := false;
      preview := "";
      loginRequested := false;
      navigation := None;
    }

    /** `setTagInput`. */
    method SetTagInput(text: string)
      modifies this
      ensures tagInput == text && formData == old(formData) && error == old(error)
    {
      tagInput := text;
    }

    /** `handleTagKeyDown(e)`: Enter with a non-blank input adds the trimmed input unless the
        tag is already there, and clears the input. */
    method HandleTagKeyDown(key: string)
      modifies this
      ensures key == "Enter" && JsTrim(old(tagInput)) != "" ==>
        tagInput == "" &&
        formData == old(formData).(tags :=
          if Str(JsTrim(old(tagInput))) in old(formData.tags) then old(formData.tags)
          else old(formData.tags) + [Str(JsTrim(old(tagInput)))])
      ensures !(key == "Enter" && JsTrim(old(tagInput)) != "") ==>
        tagInput == old(tagInput) && formData == old(formData)
      ensures NoDup(old(formData.tags)) ==> NoDup(formData.tags)
      ensures Str(JsTrim(old(tagInput))) in old(formData.tags) ==> formData.tags == old(formData.tags)
      ensures selectedCategories == old(selectedCategories) && error == old(error)
    {
      var tag := JsTrim(tagInput);
      if key == "Enter" && tag != "" {
        if Str(tag) !in formData.tags {
          formData := formData.(tags := formData.tags + [Str(tag)]);
        }
        tagInput := "";
      }
    }

    /** `removeTag(tag)`: every equal tag goes, the others keep their order. */
    method RemoveTag(tag: Value)
      modifies this
      ensures formData == old(formData).(tags := RemoveAll(old(formData.tags), tag))
      ensures tag !in formData.tags
      ensures NoDup(old(formData.tags)) ==> NoDup(formData.tags)
      ensures tagInput == old(tagInput) && selectedCategories == old(selectedCategories) && error == old(error)
    {
      formData := formData.(tags := RemoveAll(formData.tags, tag));
      if NoDup(old(formData.tags)) {
        RemoveAllNoDup(old(formData.tags), tag);
      }
    }

    /** `handleCategoryChange(selectedOptions)`: the kept options are shown, and the form's
        categories become their positive numeric values. */
    method HandleCategoryChange(selectedOptions: Value)
      modifies this
      ensures selectedCategories == ValidCategories(SelectedList(selectedOptions))
      ensures formData == old(formData).(categories := PositiveIds(selectedCategories))
      ensures forall x :: x in formData.categories <==>
        IsPositive(x) && (exists i :: 0 <= i < |SelectedList(selectedOptions)| &&
                            KeptOption(SelectedList(selectedOptions)[i]) &&
                            ToNumber(Prop(SelectedList(selectedOptions)[i], "value")) == x)
      ensures tagInput == old(tagInput) && error == old(error)
    {
      selectedCategories := ValidCategories(SelectedList(selectedOptions));
      formData := formData.(categories := PositiveIds(selectedCategories));
      SelectedIdsArePositiveValues(SelectedList(selectedOptions));
    }

    /** `handleImageChange(e)` up to reading the file: a rejected file sets the error, an
        accepted one is read; the form is not changed before the read completes. */
    method HandleImageChange(file: Option<ImageFile>) returns (read: bool)
      modifies this
      ensures read <==> CheckImage(file) == Accepted
      ensures CheckImage(file).Rejected? ==> error == CheckImage(file).message
      ensures !CheckImage(file).Rejected? ==> error == old(error)
      ensures formData == old(formData) && preview == old(preview)
    {
      match CheckImage(file) {
        case NoFile => read := false;
        case Rejected(message) =>
          error := message;
          read := false;
        case Accepted => read := true;
      }
    }

    /** The file reader's `onloadend`: the data URL becomes the preview and the featured
        image. */
    method ImageRead(dataUrl: string)
      modifies this
      ensures preview == dataUrl && formData == old(formData).(featuredImage := dataUrl)
      ensures !loading && error == ""
    {
      preview := dataUrl;
      formData := formData.(featuredImage := dataUrl);
      loading := false;
      error := "";
    }

    /** `handleSubmit(e)` up to its first `await`: a blank title or content sets the error and
        calls nothing; an unauthenticated user is sent to log in; otherwise submitting starts. */
    method SubmitStart(authenticated: bool) returns (proceed: bool)
      modifies this
      ensures BlankTitleOrContent(old(formData.title), old(formData.content)) ==>
        !proceed && error == "Title and content are required" && submitting == old(submitting)
        && loginRequested == old(loginRequested)
      ensures !BlankTitleOrContent(old(formData.title), old(formData.content)) && !authenticated ==>
        !proceed && loginRequested && error == old(error)
      ensures proceed <==> !BlankTitleOrContent(old(formData.title), old(formData.content)) && authenticated
      ensures proceed ==> submitting && error == "" && loginRequested == old(loginRequested)
      ensures formData == old(formData) && navigation == old(navigation)
    {
      var blank := BlankTitleOrContent(formData.title, formData.content);
      if blank {
        error := "Title and content are required";
        return false;
      }
      if !authenticated {
        loginRequested := true;
        return false;
      }
      submitting := true;
      error := "";
      proceed := true;
    }

    /** The end of `handleSubmit`: a saved post leads to the post list; a failure shows the
        server's message or a fixed text, and a 401 sends the user to log in. */
    method SubmitSettle(outcome: SaveOutcome)
      modifies this
      ensures !submitting
      ensures outcome.Saved? ==> navigation == Some("/posts") && error == old(error)
      ensures outcome.SaveFailed? ==> navigation == old(navigation)
      ensures outcome.SaveFailed? ==>
        error == (if outcome.message.Str? && outcome.message.s != "" then outcome.message.s
                  else "Failed to save post. Please try again.")
      ensures loginRequested <==> old(loginRequested) || (outcome.SaveFailed? && outcome.status == Some(401))
      ensures formData == old(formData)
    {
      match outcome {
        case Saved =>
          navigation := Some("/posts");
        case SaveFailed(message, status) =>
          error := if message.Str? && message.s != "" then message.s else "Failed to save post. Please try again.";
          if status == Some(401) {
            loginRequested := true;
          }
      }
      submitting := false;
    }

    /** The edit-load effect once the post has arrived: a user who may not edit is sent to
        /unauthorized; otherwise the form takes the post's fields, category ids and tags. A
        failure (no user, a `null` category or tag) shows the load error. */
    method LoadPostSettle(post: Obj, currentUser: Option<Obj>, available: seq<CategoryOption>)
      modifies this
      ensures MayEdit(post, currentUser) == Ok(false) ==>
        navigation == Some("/unauthorized") && formData == old(formData) && error == old(error)
        && selectedCategories == old(selectedCategories) && preview == old(preview)
      ensures (MayEdit(post, currentUser).Err? || (MayEdit(post, currentUser) == Ok(true) && LoadFails(post))) ==>
        error == "Failed to load post. Please try again." && formData == old(formData)
        && selectedCategories == old(selectedCategories) && preview == old(preview)
      ensures MayEdit(post, currentUser) == Ok(true) && !LoadFails(post) ==>
        formData == LoadedForm(post, formData.categories)
        && preview == (if formData.imageUrl != "" then formData.imageUrl else old(preview))
        && (forall o :: o in selectedCategories ==> o in available)
        && (Get(post, "categories").Arr? ==> forall o :: o in selectedCategories ==>
              exists c :: c in Get(post, "categories").elems && LookedUpOption(c, available) == Some(o))
        && (Get(post, "categories").Arr? ==> forall c :: c in Get(post, "categories").elems && LookedUpOption(c, available).Some? ==>
              ToNumber(LookedUpOption(c, available).value.value) in Numbers(selectedCategories))
        && (!Get(post, "categories").Arr? ==> selectedCategories == [])
        && (Get(post, "categories").Arr? ==> forall x :: x in formData.categories ==>
              exists c :: c in Get(post, "categories").elems && CategoryIdOf(c, available) == Some(x))
        && (Get(post, "categories").Arr? ==> forall c :: c in Get(post, "categories").elems && CategoryIdOf(c, available).Some? ==>
              CategoryIdOf(c, available).value in formData.categories)
        && (!Get(post, "categories").Arr? ==> formData.categories == [])
      ensures !loading
    {
      match MayEdit(post, currentUser) {
        case Err(_) =>
          error := "Failed to load post. Please try again.";
        case Ok(allowed) =>
          if !allowed {
            navigation := Some("/unauthorized");
          } else {
            var loaded := LoadPostCategories(Get(post, "categories"), available);
            if Get(post, "categories").Arr? {
              GatheredIds(Get(post, "categories").elems, available);
              GatheredOptions(Get(post, "categories").elems, available);
            }
            var tags := Get(post, "tags");
            var names := if tags.Arr? then TagNames(tags.elems) else Ok([]);
            if loaded.Err? || names.Err? {
              error := "Failed to load post. Please try again.";
            } else {
              formData := LoadedForm(post, loaded.value.0);
              selectedCategories := loaded.value.1;
              var image := TextOr(Get(post, "imageUrl"), TextOr(Get(post, "featuredImage"), ""));
              if image != "" {
                preview := image;
              }
            }
          }
      }
      loading := false;
    }
  }

  /** Reading the post's categories or tags throws: one of them is `null`. */
  predicate LoadFails(post: Obj): (r: bool)
    ensures r <==> (Get(post, "categories").Arr? && Null in Get(post, "categories").elems)
                   || (Get(post, "tags").Arr? && TagNames(Get(post, "tags").elems).Err?)
  {
    (Get(post, "categories").Arr? && Null in Get(post, "categories").elems)
    || (Get(post, "tags").Arr? && Null in Get(post, "tags").elems)
  }

  /** `formDataUpdate`: the post's text fields or their defaults, the two images standing in for
      each other, published unless it says otherwise, the loaded category ids and the tag names. */
  function LoadedForm(post: Obj, ids: seq<Value>): (f: FormData)
    requires !(Get(post, "tags").Arr? && Null in Get(post, "tags").elems)
    ensures f.title == TextOr(Get(post, "title"), "") && f.content == TextOr(Get(post, "content"), "")
    ensures f.slug == TextOr(Get(post, "slug"), "") && f.excerpt == TextOr(Get(post, "excerpt"), "")
    ensures f.featuredImage == TextOr(Get(post, "featuredImage"), TextOr(Get(post, "imageUrl"), ""))
    ensures f.imageUrl == TextOr(Get(post, "imageUrl"), TextOr(Get(post, "featuredImage"), ""))
    ensures f.published <==> Get(post, "published").Undefined? || Truthy(Get(post, "published"))
    ensures f.categories == ids
    ensures !Get(post, "tags").Arr? ==> f.tags == []
    ensures Get(post, "tags").Arr? ==> |f.tags| == |Get(post, "tags").elems|
    ensures Get(post, "tags").Arr? ==> TagNames(Get(post, "tags").elems) == Ok(f.tags)
  {
    var tags := Get(post, "tags");
    FormData(
      TextOr(Get(post, "title"), ""), TextOr(Get(post, "slug"), ""),
      TextOr(Get(post, "excerpt"), ""), TextOr(Get(post, "content"), ""),
      TextOr(Get(post, "featuredImage"), TextOr(Get(post, "imageUrl"), "")),
      TextOr(Get(post, "imageUrl"), TextOr(Get(post, "featuredImage"), "")),
      Get(post, "published").Undefined? || Truthy(Get(post, "published")),
      ids,
      if tags.Arr? then TagNames(tags.elems).value else [])
  }

  /** `v || fallback` for a text field: a non-empty string, or the fallback. */
  function TextOr(v: Value, fallback: string): (r: string)
    ensures v.Str? && v.s != "" ==> r == v.s
    ensures !Truthy(v) ==> r == fallback
    ensures !v.Str? ==> r == fallback
    ensures r == "" ==> fallback == ""
  {
    if v.Str? && v.s != "" then v.s else fallback
  }

  /** `tags.map(tag => typeof tag === 'object' ? tag.name : tag)`: an object gives its name, an
      array (also an object) `undefined`, and `null`, whose name cannot be read, throws. */
  function TagNames(tags: seq<Value>): (r: Result<seq<Value>, string>)
    ensures r.Err? <==> Null in tags
    ensures r.Ok? ==> |r.value| == |tags|
    ensures r.Ok? ==> forall i :: 0 <= i < |tags| && tags[i].Str? ==> r.value[i] == tags[i]
    ensures r.Ok? ==> forall i :: 0 <= i < |tags| && tags[i].Rec? ==> r.value[i] == Get(tags[i].fields, "name")
  {
    if tags == [] then Ok([])
    else
      var t := tags[0];
      if t.Null? then Err("TypeError")
      else match TagNames(tags[1..])
        case Err(e) => Err(e)
        case Ok(rest) =>
          assert forall i :: 1 <= i < |tags| ==> tags[i] == tags[1..][i - 1];
          Ok([if t.Rec? then Get(t.fields, "name") else if t.Arr? then Undefined else t] + rest)
  }
}
