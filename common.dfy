/** The page helpers shared by both front-end screens: checking a date range
    picked in two date inputs, and flattening the field catalogue. */
module CommonUtils {
  import opened Wrappers

  /** The value of an HTML date input: empty, or a calendar day (days since
      some fixed epoch; `new Date(..)` on two ISO dates orders them as these
      numbers do). */
  datatype DateInput = Empty | Day(n: int)

  /** `{ valid, message }` as the helper returns it; a valid range has no message. */
  datatype Validation = Validation(valid: bool, message: Option<string>)

  const IncompleteRangeMessage: string := "请选择完整的日期范围"
  const StartAfterEndMessage: string := "开始日期不能晚于结束日期"

  /** A range is accepted exactly when both dates are filled in and the start
      is not after the end; a missing date is reported before the ordering. */
  function ValidateDateRange(start: DateInput, end: DateInput): (v: Validation)
    ensures v.valid <==> start.Day? && end.Day? && start.n <= end.n
    ensures v.valid <==> v.message == None
    ensures start.Empty? || end.Empty? ==> v.message == Some(IncompleteRangeMessage)
    ensures start.Day? && end.Day? && start.n > end.n ==> v.message == Some(StartAfterEndMessage)
  {
    if start.Empty? || end.Empty? then Validation(false, Some(IncompleteRangeMessage))
    else if start.n > end.n then Validation(false, Some(StartAfterEndMessage))
    else Validation(true, None)
  }

  /** The keys of each category, categories in catalogue order, one after the other. */
  function Concat(categories: seq<seq<string>>): seq<string>
  {
    if |categories| == 0 then [] else categories[0] + Concat(categories[1..])
  }

  function TotalSize(categories: seq<seq<string>>): nat
  {
    if |categories| == 0 then 0 else |categories[0]| + TotalSize(categories[1..])
  }

  /** Every field key of the catalogue. The catalogue is None before it has
      been loaded; it maps each category to its fields, given here as the
      sequence of each category's keys in object order. */
  function GetAllFieldKeys(fields: Option<seq<seq<string>>>): (keys: seq<string>)
    ensures fields.None? ==> keys == []
    ensures fields.Some? ==> |keys| == TotalSize(fields.value)
    ensures fields.Some? ==> forall k :: k in keys <==> exists c :: 0 <= c < |fields.value| && k in fields.value[c]
  {
    match fields
    case None => []
    case Some(categories) =>
      ConcatLength(categories);
      ConcatMembers(categories);
      Concat(categories)
  }

  lemma {:induction false} ConcatLength(categories: seq<seq<string>>)
    ensures |Concat(categories)| == TotalSize(categories)
  {
    if |categories| > 0 { ConcatLength(categories[1..]); }
  }

  /** A key is listed exactly when some category holds it. */
  lemma ConcatMembers(categories: seq<seq<string>>)
    ensures forall k :: k in Concat(categories) <==> exists c :: 0 <= c < |categories| && k in categories[c]
  {
    forall k {
      ConcatHas(categories, k);
    }
  }

  lemma {:induction false} ConcatHas(categories: seq<seq<string>>, k: string)
    ensures k in Concat(categories) <==> exists c :: 0 <= c < |categories| && k in categories[c]
  {
    if |categories| > 0 {
      var rest := categories[1..];
      ConcatHas(rest, k);
      assert Concat(categories) == categories[0] + Concat(rest);
      if k in Concat(rest) {
        var c :| 0 <= c < |rest| && k in rest[c];
        assert k in categories[c + 1];
      }
      if exists c :: 0 <= c < |categories| && k in categories[c] {
        var c :| 0 <= c < |categories| && k in categories[c];
        if c > 0 {
          assert rest[c - 1] == categories[c];
        }
      }
    }
  }

  /** Each category's keys appear as one block, in catalogue order. */
  lemma {:induction false} ConcatAppend(categories: seq<seq<string>>, last: seq<string>)
    ensures Concat(categories + [last]) == Concat(categories) + last
  {
    if |categories| == 0 {
      assert categories + [last] == [last];
    } else {
      assert (categories + [last])[1..] == categories[1..] + [last];
      ConcatAppend(categories[1..], last);
    }
  }
}
