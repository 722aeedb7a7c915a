/**
 * The React wish-list page (hono-frontend/src/App.tsx): the component state
 * and what each event handler does to it. Every fetch becomes a parameter
 * holding the outcome the server gave: `Ok` with the decoded body, or
 * `Failed` for a network error or a non-2xx status, after which the handler
 * only logs and changes nothing.
 *
 * The page has its own schema, unrelated to the worker's: numeric ids, an
 * `item` field for the name, the categories necessity / improvement and the
 * statuses maybe_unnecessary / unnecessary.
 */
module Frontend {

  import opened Wrappers

  datatype Category = Necessity | Improvement

  /** The literal union `1 | 2 | 3`. */
  type DesireLevel = d: int | 1 <= d <= 3 witness 1

  datatype Status = Wanted | Purchased | MaybeUnnecessary | Unnecessary

  datatype WishlistItem = WishlistItem(
    id: int,
    item: string,
    category: Category,
    desireLevel: DesireLevel,
    status: Status,
    reason: string,
    memo: string,
    score: real)

  /** The body handleSubmit posts: the form fields and a status. */
  datatype NewItemData = NewItemData(
    item: string,
    category: Category,
    desireLevel: DesireLevel,
    status: Status,
    reason: string,
    memo: string)

  /** The PUT handleUpdate sends: the id in the URL and the edit data as body. */
  datatype UpdateRequest = UpdateRequest(id: int, body: Record)

  /** How a request ended, as the handler sees it. */
  datatype Response<T> = Ok(body: T) | Failed

  /** A JavaScript value held in the edit data: a string, a number or NaN. */
  datatype JsValue = JsString(s: string) | JsNumber(n: real) | NaN

  /** A plain JavaScript object; `Partial<WishlistItem>` at run time. */
  type Record = map<string, JsValue>

  function CategoryName(c: Category): string
  {
    match c
    case Necessity => "necessity"
    case Improvement => "improvement"
  }

  function StatusName(s: Status): string
  {
    match s
    case Wanted => "wanted"
    case Purchased => "purchased"
    case MaybeUnnecessary => "maybe_unnecessary"
    case Unnecessary => "unnecessary"
  }

  function CategoryFromName(s: string): (c: Option<Category>)
    ensures c.Some? ==> CategoryName(c.value) == s
  {
    if s == "necessity" then Some(Necessity)
    else if s == "improvement" then Some(Improvement)
    else None
  }

  function StatusFromName(s: string): (st: Option<Status>)
    ensures st.Some? ==> StatusName(st.value) == s
  {
    if s == "wanted" then Some(Wanted)
    else if s == "purchased" then Some(Purchased)
    else if s == "maybe_unnecessary" then Some(MaybeUnnecessary)
    else if s == "unnecessary" then Some(Unnecessary)
    else None
  }

  lemma CategoryNameRoundTrip(c: Category)
    ensures CategoryFromName(CategoryName(c)) == Some(c)
  {
  }

  lemma StatusNameRoundTrip(s: Status)
    ensures StatusFromName(StatusName(s)) == Some(s)
  {
  }

  // ---------------------------------------------------------------------
  // Number(value) on the strings a form control yields

  predicate IsDigit(c: char)
  {
    '0' <= c <= '9'
  }

  predicate AllDigits(s: string)
  {
    forall i :: 0 <= i < |s| ==> IsDigit(s[i])
  }

  /** The value of a string of decimal digits, the last digit least significant. */
  function DigitsValue(s: string): nat
    requires AllDigits(s)
  {
    if s == [] then 0
    else DigitsValue(s[..|s| - 1]) * 10 + (s[|s| - 1] as int - '0' as int)
  }

  /**
   * `Number(value)` for a string of decimal digits (the empty string gives 0);
   * any other string is NaN here.
   */
  function ToNumber(s: string): (v: JsValue)
    ensures v != NaN <==> AllDigits(s)
    ensures v.JsNumber? ==> v.n >= 0.0 && v.n == v.n.Floor as real
  {
    if AllDigits(s) then JsNumber(DigitsValue(s) as real) else NaN
  }

  function DigitChar(d: nat): (c: char)
    requires d < 10
    ensures IsDigit(c) && c as int - '0' as int == d
  {
    ('0' as int + d) as char
  }

  /** How React writes a number into an option's value: decimal, no leading zeros. */
  function DecimalString(n: nat): (s: string)
    ensures |s| > 0 && AllDigits(s)
  {
    if n < 10 then [DigitChar(n)] else DecimalString(n / 10) + [DigitChar(n % 10)]
  }

  lemma {:induction false} DigitsValueOfDecimal(n: nat)
    ensures DigitsValue(DecimalString(n)) == n
  {
    var s := DecimalString(n);
    if n < 10 {
      assert s[..0] == [];
    } else {
      DigitsValueOfDecimal(n / 10);
      assert s[..|s| - 1] == DecimalString(n / 10);
    }
  }

  /** Number() reads back the number an option's value was rendered from. */
  lemma ToNumberOfDecimal(n: nat)
    ensures ToNumber(DecimalString(n)) == JsNumber(n as real)
  {
    DigitsValueOfDecimal(n);
  }

  // ---------------------------------------------------------------------
  // The edit data

  /** `{ ...item }`: an item spread into a plain object. */
  function ItemRecord(it: WishlistItem): (r: Record)
    ensures r.Keys == {"id", "item", "category", "desireLevel", "status", "reason", "memo", "score"}
  {
    map[
      "id" := JsNumber(it.id as real),
      "item" := JsString(it.item),
      "category" := JsString(CategoryName(it.category)),
      "desireLevel" := JsNumber(it.desireLevel as real),
      "status" := JsString(StatusName(it.status)),
      "reason" := JsString(it.reason),
      "memo" := JsString(it.memo),
      "score" := JsNumber(it.score)]
  }

  /** The key names the field of a record as text, when it is a string. */
  function TextField(m: Record, key: string): Option<string>
  {
    if key in m && m[key].JsString? then Some(m[key].s) else None
  }

  /** The key names the field of a record as a number, when it is one. */
  function NumberField(m: Record, key: string): Option<real>
  {
    if key in m && m[key].JsNumber? then Some(m[key].n) else None
  }

  /**
   * Reads a record back as an item, when every field is present with a
   * value of the item's type; the reference against which the edit data
   * is judged.
   */
  function RecordItem(m: Record): Option<WishlistItem>
  {
    var id := NumberField(m, "id");
    var item := TextField(m, "item");
    var category := if TextField(m, "category").Some? then CategoryFromName(TextField(m, "category").value) else None;
    var desire := NumberField(m, "desireLevel");
    var status := if TextField(m, "status").Some? then StatusFromName(TextField(m, "status").value) else None;
    var reason := TextField(m, "reason");
    var memo := TextField(m, "memo");
    var score := NumberField(m, "score");
    if && id.Some? && id.value == id.value.Floor as real
       && item.Some? && category.Some?
       && desire.Some? && desire.value in {1.0, 2.0, 3.0}
       && status.Some? && reason.Some? && memo.Some? && score.Some?
    then
      Some(WishlistItem(id.value.Floor, item.value, category.value, desire.value.Floor,
                        status.value, reason.value, memo.value, score.value))
    else
      None
  }

  /** The edit data a click starts from is an exact copy of the item. */
  lemma ItemRecordRoundTrip(it: WishlistItem)
    ensures RecordItem(ItemRecord(it)) == Some(it)
  {
    CategoryNameRoundTrip(it.category);
    StatusNameRoundTrip(it.status);
    assert (it.id as real).Floor == it.id;
    assert (it.desireLevel as real).Floor == it.desireLevel;
  }

  /**
   * `{ ...prev, [name]: name === "desireLevel" ? Number(value) : value }`:
   * the named field takes the value, converted to a number exactly when the
   * field is desireLevel; every other field is kept.
   */
  function EditMerge(prev: Record, name: string, value: string): (r: Record)
    ensures r.Keys == prev.Keys + {name}
    ensures forall k :: k in prev && k != name ==> r[k] == prev[k]
    ensures name == "desireLevel" ==> r[name] == ToNumber(value)
    ensures name != "desireLevel" ==> r[name] == JsString(value)
  {
    prev[name := if name == "desireLevel" then ToNumber(value) else JsString(value)]
  }

  /** Picking desire d in the edit form gives the item with desire d. */
  lemma EditDesireLevel(it: WishlistItem, d: DesireLevel)
    ensures RecordItem(EditMerge(ItemRecord(it), "desireLevel", DecimalString(d)))
            == Some(it.(desireLevel := d))
  {
    ToNumberOfDecimal(d);
    var m := EditMerge(ItemRecord(it), "desireLevel", DecimalString(d));
    assert m == ItemRecord(it.(desireLevel := d));
    ItemRecordRoundTrip(it.(desireLevel := d));
  }

  /**
   * Illustrative, not a behaviour of the page: if the chosen desire level
   * were stored as text, the edit data would no longer read as an item.
   */
  lemma EditDesireLevelNeedsNumber(it: WishlistItem, value: string)
    ensures RecordItem(ItemRecord(it)["desireLevel" := JsString(value)]) == None
  {
  }

  /** Typing into the name field changes only the item's name. */
  lemma EditName(it: WishlistItem, value: string)
    ensures RecordItem(EditMerge(ItemRecord(it), "item", value)) == Some(it.(item := value))
  {
    assert EditMerge(ItemRecord(it), "item", value) == ItemRecord(it.(item := value));
    ItemRecordRoundTrip(it.(item := value));
  }

  /** Typing into the reason field changes only the item's reason. */
  lemma EditReason(it: WishlistItem, value: string)
    ensures RecordItem(EditMerge(ItemRecord(it), "reason", value)) == Some(it.(reason := value))
  {
    assert EditMerge(ItemRecord(it), "reason", value) == ItemRecord(it.(reason := value));
    ItemRecordRoundTrip(it.(reason := value));
  }

  /** Typing into the memo field changes only the item's memo. */
  lemma EditMemo(it: WishlistItem, value: string)
    ensures RecordItem(EditMerge(ItemRecord(it), "memo", value)) == Some(it.(memo := value))
  {
    assert EditMerge(ItemRecord(it), "memo", value) == ItemRecord(it.(memo := value));
    ItemRecordRoundTrip(it.(memo := value));
  }

  /** Choosing a category option changes only the category. */
  lemma EditCategory(it: WishlistItem, c: Category)
    ensures RecordItem(EditMerge(ItemRecord(it), "category", CategoryName(c))) == Some(it.(category := c))
  {
    assert EditMerge(ItemRecord(it), "category", CategoryName(c)) == ItemRecord(it.(category := c));
    ItemRecordRoundTrip(it.(category := c));
  }

  /** Choosing a status option changes only the status. */
  lemma EditStatus(it: WishlistItem, s: Status)
    ensures RecordItem(EditMerge(ItemRecord(it), "status", StatusName(s))) == Some(it.(status := s))
  {
    assert EditMerge(ItemRecord(it), "status", StatusName(s)) == ItemRecord(it.(status := s));
    ItemRecordRoundTrip(it.(status := s));
  }

  // ---------------------------------------------------------------------
  // The list transforms

  /** No two entries share an id. */
  predicate UniqueIds(s: seq<WishlistItem>)
  {
    forall i, j :: 0 <= i < j < |s| ==> s[i].id != s[j].id
  }

  predicate HasId(s: seq<WishlistItem>, id: int)
  {
    exists i :: 0 <= i < |s| && s[i].id == id
  }

  /** `wishlist.map(item => item.id === updated.id ? updated : item)`. */
  function ReplaceById(s: seq<WishlistItem>, updated: WishlistItem): (r: seq<WishlistItem>)
    ensures |r| == |s|
    ensures forall i :: 0 <= i < |s| ==> r[i] == (if s[i].id == updated.id then updated else s[i])
  {
    if s == [] then []
    else [if s[0].id == updated.id then updated else s[0]] + ReplaceById(s[1..], updated)
  }

  /** `wishlist.filter(item => item.id !== id)`. */
  function RemoveById(s: seq<WishlistItem>, id: int): (r: seq<WishlistItem>)
    ensures |r| <= |s|
    ensures forall x :: x in r <==> x in s && x.id != id
  {
    if s == [] then []
    else if s[0].id == id then RemoveById(s[1..], id)
    else [s[0]] + RemoveById(s[1..], id)
  }

  /** Removing distributes over concatenation, so the survivors keep their order. */
  lemma {:induction false} RemoveByIdConcat(a: seq<WishlistItem>, b: seq<WishlistItem>, id: int)
    ensures RemoveById(a + b, id) == RemoveById(a, id) + RemoveById(b, id)
  {
    if a == [] {
      assert a + b == b;
    } else {
      assert (a + b)[1..] == a[1..] + b;
      RemoveByIdConcat(a[1..], b, id);
    }
  }

  /** A list with no entry of that id is left as it is. */
  lemma {:induction false} RemoveByIdAbsent(s: seq<WishlistItem>, id: int)
    requires !HasId(s, id)
    ensures RemoveById(s, id) == s
  {
    if s != [] {
      assert !HasId(s[1..], id) by {
        forall i | 0 <= i < |s[1..]| ensures s[1..][i].id != id {
          assert s[1..][i] == s[i + 1];
        }
      }
      RemoveByIdAbsent(s[1..], id);
    }
  }

  /** With unique ids, deleting an id that is present removes exactly one entry, in place. */
  lemma RemoveByIdUnique(s: seq<WishlistItem>, k: nat)
    requires UniqueIds(s) && k < |s|
    ensures RemoveById(s, s[k].id) == s[..k] + s[k + 1..]
    ensures |RemoveById(s, s[k].id)| == |s| - 1
  {
    var id := s[k].id;
    assert s == s[..k] + ([s[k]] + s[k + 1..]);
    RemoveByIdConcat(s[..k], [s[k]] + s[k + 1..], id);
    RemoveByIdConcat([s[k]], s[k + 1..], id);
    assert !HasId(s[..k], id) by {
      forall i | 0 <= i < k ensures s[..k][i].id != id {
        assert s[..k][i] == s[i];
      }
    }
    var tail := s[k + 1..];
    assert !HasId(tail, id) by {
      forall i | 0 <= i < |tail| ensures tail[i].id != id {
        assert tail[i] == s[k + 1 + i];
      }
    }
    RemoveByIdAbsent(s[..k], id);
    RemoveByIdAbsent(s[k + 1..], id);
    assert RemoveById([s[k]], id) == [];
  }

  /** Appending an item whose id is new keeps the ids unique. */
  lemma AppendKeepsUniqueIds(s: seq<WishlistItem>, added: WishlistItem)
    requires UniqueIds(s) && !HasId(s, added.id)
    ensures UniqueIds(s + [added])
  {
  }

  /** Replacing by id keeps the ids unique. */
  lemma ReplaceKeepsUniqueIds(s: seq<WishlistItem>, updated: WishlistItem)
    requires UniqueIds(s)
    ensures UniqueIds(ReplaceById(s, updated))
  {
  }

  /** The entry of a present id holds the returned item after the update. */
  lemma ReplaceByIdInstalls(s: seq<WishlistItem>, updated: WishlistItem)
    requires HasId(s, updated.id)
    ensures updated in ReplaceById(s, updated)
  {
  }

  /** Filtering keeps the ids unique. */
  lemma {:induction false} RemoveKeepsUniqueIds(s: seq<WishlistItem>, id: int)
    requires UniqueIds(s)
    ensures UniqueIds(RemoveById(s, id))
  {
    if s != [] {
      assert UniqueIds(s[1..]) by {
        forall i, j | 0 <= i < j < |s[1..]| ensures s[1..][i].id != s[1..][j].id {
          assert s[1..][i] == s[i + 1] && s[1..][j] == s[j + 1];
        }
      }
      RemoveKeepsUniqueIds(s[1..], id);
      var rest := RemoveById(s[1..], id);
      if s[0].id != id {
        forall x | x in rest ensures x.id != s[0].id {
          assert x in s[1..];
          var j :| 0 <= j < |s[1..]| && s[1..][j] == x;
          assert s[j + 1] == x;
        }
        assert UniqueIds([s[0]] + rest) by {
          forall i, j | 0 <= i < j < |[s[0]] + rest| ensures ([s[0]] + rest)[i].id != ([s[0]] + rest)[j].id {
            if i == 0 {
              assert ([s[0]] + rest)[j] == rest[j - 1];
              assert rest[j - 1] in rest;
            } else {
              assert ([s[0]] + rest)[i] == rest[i - 1] && ([s[0]] + rest)[j] == rest[j - 1];
            }
          }
        }
      }
    }
  }

  // ---------------------------------------------------------------------
  // Rendering of the desire level

  function Repeat(c: char, n: nat): (r: string)
    ensures |r| == n
    ensures forall i :: 0 <= i < n ==> r[i] == c
  {
    if n == 0 then [] else [c] + Repeat(c, n - 1)
  }

  /** `'★'.repeat(desireLevel) + '☆'.repeat(3 - desireLevel)`. */
  function Stars(d: DesireLevel): (r: string)
    ensures |r| == 3
    ensures forall i :: 0 <= i < d ==> r[i] == '★'
    ensures forall i :: d <= i < 3 ==> r[i] == '☆'
  {
    Repeat('★', d) + Repeat('☆', 3 - d)
  }

  /** How often `c` occurs in `s`. */
  function Occurrences(c: char, s: string): nat
  {
    if s == [] then 0 else (if s[0] == c then 1 else 0) + Occurrences(c, s[1..])
  }

  lemma {:induction false} OccurrencesConcat(c: char, a: string, b: string)
    ensures Occurrences(c, a + b) == Occurrences(c, a) + Occurrences(c, b)
  {
    if a != [] {
      assert (a + b)[1..] == a[1..] + b;
      OccurrencesConcat(c, a[1..], b);
    } else {
      assert a + b == b;
    }
  }

  lemma {:induction false} OccurrencesRepeat(c: char, e: char, n: nat)
    ensures Occurrences(c, Repeat(e, n)) == if c == e then n else 0
  {
    if n > 0 {
      assert Repeat(e, n)[1..] == Repeat(e, n - 1);
      OccurrencesRepeat(c, e, n - 1);
    }
  }

  /** The display holds exactly `desireLevel` filled stars and `3 - desireLevel` empty ones. */
  lemma StarsCount(d: DesireLevel)
    ensures Occurrences('★', Stars(d)) == d
    ensures Occurrences('☆', Stars(d)) == 3 - d
  {
    OccurrencesConcat('★', Repeat('★', d), Repeat('☆', 3 - d));
    OccurrencesConcat('☆', Repeat('★', d), Repeat('☆', 3 - d));
    OccurrencesRepeat('★', '★', d);
    OccurrencesRepeat('★', '☆', 3 - d);
    OccurrencesRepeat('☆', '★', d);
    OccurrencesRepeat('☆', '☆', 3 - d);
  }

  // ---------------------------------------------------------------------
  // The component

  /** The state hooks of `App` and its handlers. */
  class App {

    var wishlist: seq<WishlistItem>
    var item: string
    var category: Category
    var desireLevel: DesireLevel
    var reason: string
    var memo: string
    var editingItemId: Option<int>
    var editingItemData: Record

    /** The initial values passed to useState. */
    constructor ()
      ensures wishlist == [] && item == "" && category == Necessity && desireLevel == 1
      ensures reason == "" && memo == ""
      ensures editingItemId == None && editingItemData == map[]
    {
      wishlist := [];
      item := "";
      category := Necessity;
      desireLevel := 1;
      reason := "";
      memo := "";
      editingItemId := None;
      editingItemData := map[];
    }

    /** The body handleSubmit posts, or None when the name field is empty. */
    function SubmitDraft(): (d: Option<NewItemData>)
      reads this
      ensures d.None? <==> item == ""
      ensures d.Some? ==> d.value.status == Wanted
      ensures d.Some? ==> d.value.item == item && d.value.category == category && d.value.desireLevel == desireLevel
      ensures d.Some? ==> d.value.reason == reason && d.value.memo == memo
    {
      if item == "" then None else Some(NewItemData(item, category, desireLevel, Wanted, reason, memo))
    }

    /** The form fields, in the order they are shown. */
    function FormFields(): (string, Category, DesireLevel, string, string)
      reads this
    {
      (item, category, desireLevel, reason, memo)
    }

    /**
     * handleSubmit. `sent` is the body posted, None when the guard returned
     * early; `response` is what the POST gave, ignored when nothing was sent.
     */
    method HandleSubmit(response: Response<WishlistItem>) returns (sent: Option<NewItemData>)
      modifies this
      ensures sent == old(SubmitDraft())
      ensures sent.None? || response.Failed? ==> unchanged(this)
      ensures sent.Some? && response.Ok? ==>
        && wishlist == old(wishlist) + [response.body]
        && FormFields() == ("", Necessity, 1, "", "")
        && editingItemId == old(editingItemId) && editingItemData == old(editingItemData)
    {
      sent := SubmitDraft();
      if sent.None? {
        return;
      }
      match response {
        case Failed =>
        case Ok(added) =>
          wishlist := wishlist + [added];
          item := "";
          category := Necessity;
          desireLevel := 1;
          reason := "";
          memo := "";
      }
    }

    /** handleEditClick: edit this item, starting from a copy of it. */
    method HandleEditClick(it: WishlistItem)
      modifies this
      ensures editingItemId == Some(it.id)
      ensures editingItemData == ItemRecord(it)
      ensures RecordItem(editingItemData) == Some(it)
      ensures wishlist == old(wishlist) && FormFields() == old(FormFields())
    {
      editingItemId := Some(it.id);
      editingItemData := ItemRecord(it);
      ItemRecordRoundTrip(it);
    }

    /** handleEditChange for the control called `name` now holding `value`. */
    method HandleEditChange(name: string, value: string)
      modifies this
      ensures editingItemData == EditMerge(old(editingItemData), name, value)
      ensures wishlist == old(wishlist) && FormFields() == old(FormFields())
      ensures editingItemId == old(editingItemId)
    {
      editingItemData := EditMerge(editingItemData, name, value);
    }

    /**
     * handleUpdate. `sent` is the PUT issued, None when no item is being
     * edited; `response` is the item the server returned, or Failed.
     */
    method HandleUpdate(response: Response<WishlistItem>) returns (sent: Option<UpdateRequest>)
      modifies this
      ensures sent == if old(editingItemId).None? then None
                      else Some(UpdateRequest(old(editingItemId).value, old(editingItemData)))
      ensures sent.None? || response.Failed? ==> unchanged(this)
      ensures sent.Some? && response.Ok? ==>
        && wishlist == ReplaceById(old(wishlist), response.body)
        && editingItemId == None && editingItemData == map[]
        && FormFields() == old(FormFields())
    {
      if editingItemId.None? {
        return None;
      }
      sent := Some(UpdateRequest(editingItemId.value, editingItemData));
      match response {
        case Failed =>
        case Ok(updated) =>
          wishlist := ReplaceById(wishlist, updated);
          editingItemId := None;
          editingItemData := map[];
      }
    }

    /** handleCancelEdit: leave edit mode. */
    method HandleCancelEdit()
      modifies this
      ensures editingItemId == None && editingItemData == map[]
      ensures wishlist == old(wishlist) && FormFields() == old(FormFields())
    {
      editingItemId := None;
      editingItemData := map[];
    }

    /** handleDelete for `id`; `ok` says whether the DELETE succeeded. */
    method HandleDelete(id: int, ok: bool)
      modifies this
      ensures !ok ==> unchanged(this)
      ensures ok ==> wishlist == RemoveById(old(wishlist), id)
      ensures ok ==> !HasId(wishlist, id)
      ensures FormFields() == old(FormFields())
      ensures editingItemId == old(editingItemId) && editingItemData == old(editingItemData)
    {
      if ok {
        wishlist := RemoveById(wishlist, id);
      }
    }
  }
}
