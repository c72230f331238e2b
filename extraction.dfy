/**
 * The generic scraping helpers of weather_terminal/parsers/weather_com_parser.py:
 * `_get_data`, `_parse` and `_get_additional_info`.
 */
module Extraction {
  import opened Wrappers
  import opened Soup
  import opened Errors

  /** A criteria dict: CSS class (the field's key) -> tag name to look for. */
  type Criteria = map<string, string>

  /** A scraped record: CSS class -> text of the element found for it. */
  type FieldSet = map<string, string>

  function Selects(criteria: Criteria, key: string): Selector
    requires key in criteria
  {
    Selector(criteria[key], Some(key))
  }

  /** Some descendant of `node` has the tag and the class `key` asks for. */
  predicate HasMatch(node: Node, criteria: Criteria, key: string)
    requires key in criteria
  {
    exists i :: 0 <= i < |Descendants(node)| && Matches(Descendants(node)[i], Selects(criteria, key))
  }

  /** The text of the first descendant with the tag and class `key` asks for, if there is one. */
  function FieldText(node: Node, criteria: Criteria, key: string): (r: Option<string>)
    requires key in criteria
    ensures r.Some? <==> HasMatch(node, criteria, key)
    ensures r.Some? ==> exists i :: IsFirstMatch(Descendants(node), Selects(criteria, key), i) && r.value == GetText(Descendants(node)[i])
  {
    match Find(node, Selects(criteria, key))
    case None => None
    case Some(found) => Some(GetText(found))
  }

  /** The criteria in `keys` that find an element under `node`, each with the element's text. */
  function Scraped(node: Node, criteria: Criteria, keys: set<string>): map<string, string>
    requires keys <= criteria.Keys
  {
    map key | key in keys && FieldText(node, criteria, key).Some? :: FieldText(node, criteria, key).value
  }

  /** Adding one criterion to those already tried extends the scraped map by at most that key. */
  lemma ScrapedStep(node: Node, criteria: Criteria, done: set<string>, key: string)
    requires done <= criteria.Keys && key in criteria && key !in done
    ensures Scraped(node, criteria, done + {key}) ==
      match FieldText(node, criteria, key)
      case None => Scraped(node, criteria, done)
      case Some(text) => Scraped(node, criteria, done)[key := text]
  {
  }

  /**
   * The value `_get_data` returns for one node. Calling `find` with `class_` on a text node fails
   * (a text node is a str), but only once the loop runs, so an empty criteria dict never fails.
   */
  function FieldSetOf(node: Node, criteria: Criteria): (r: Result<FieldSet, Error>)
    ensures r.Err? <==> node.Text? && |criteria| > 0
    ensures r.Err? ==> r.error == FindOnText
    ensures r.Ok? ==> r.value.Keys <= criteria.Keys
    ensures r.Ok? ==> forall key :: key in criteria ==> (key in r.value <==> HasMatch(node, criteria, key))
  {
    if node.Text? && |criteria| > 0 then Err(FindOnText)
    else Ok(Scraped(node, criteria, criteria.Keys))
  }

  /** A key of `_get_data`'s result holds the text of the FIRST descendant, in document order, that matches. */
  lemma FieldSetFirstMatch(node: Node, criteria: Criteria, key: string)
    requires FieldSetOf(node, criteria).Ok? && key in FieldSetOf(node, criteria).value
    ensures key in criteria
    ensures exists i :: IsFirstMatch(Descendants(node), Selects(criteria, key), i)
                     && FieldSetOf(node, criteria).value[key] == GetText(Descendants(node)[i])
  {
    var m := FieldSetOf(node, criteria).value;
    assert m == Scraped(node, criteria, criteria.Keys);
    assert m[key] == FieldText(node, criteria, key).value;
  }

  /** `_get_data`: fill the dict one criterion at a time, keeping only the criteria that found an element. */
  method GetData(node: Node, criteria: Criteria) returns (r: Result<FieldSet, Error>)
    ensures r == FieldSetOf(node, criteria)
  {
    var scraped: FieldSet := map[];
    var remaining := criteria.Keys;
    while remaining != {}
      invariant remaining <= criteria.Keys
      invariant node.Text? ==> remaining == criteria.Keys
      invariant scraped == Scraped(node, criteria, criteria.Keys - remaining)
      decreases remaining
    {
      var key :| key in remaining;
      if node.Text? {
        return Err(FindOnText);
      }
      var data := FieldText(node, criteria, key);
      if data.Some? {
        scraped := scraped[key := data.value];
      }
      ScrapedStep(node, criteria, criteria.Keys - remaining, key);
      assert criteria.Keys - (remaining - {key}) == (criteria.Keys - remaining) + {key};
      remaining := remaining - {key};
    }
    assert criteria.Keys - remaining == criteria.Keys;
    return Ok(scraped);
  }

  /** The list comprehension of line 35: one `_get_data` result per child, in order; any failure stops it. */
  function FieldSets(children: seq<Node>, criteria: Criteria): (r: Result<seq<FieldSet>, Error>)
    ensures r.Ok? ==> |r.value| == |children|
    ensures r.Err? ==> r.error == FindOnText
  {
    if children == [] then Ok([])
    else
      match FieldSetOf(children[0], criteria)
      case Err(e) => Err(e)
      case Ok(first) =>
        match FieldSets(children[1..], criteria)
        case Err(e) => Err(e)
        case Ok(rest) => Ok([first] + rest)
  }

  /** Each child's field set is that child's `_get_data` result, in child order. */
  lemma {:induction false} FieldSetsPerChild(children: seq<Node>, criteria: Criteria)
    requires FieldSets(children, criteria).Ok?
    ensures forall i :: 0 <= i < |children| ==> FieldSetOf(children[i], criteria) == Ok(FieldSets(children, criteria).value[i])
  {
    if children != [] {
      var tail := children[1..];
      FieldSetsPerChild(tail, criteria);
      var sets := FieldSets(children, criteria).value;
      assert sets == [FieldSetOf(children[0], criteria).value] + FieldSets(tail, criteria).value;
      forall i | 1 <= i < |children|
        ensures FieldSetOf(children[i], criteria) == Ok(sets[i])
      {
        assert children[i] == tail[i - 1];
      }
    }
  }

  /** The comprehension fails exactly when some child's `_get_data` fails. */
  lemma {:induction false} FieldSetsFail(children: seq<Node>, criteria: Criteria)
    ensures FieldSets(children, criteria).Err? <==> exists i :: 0 <= i < |children| && FieldSetOf(children[i], criteria).Err?
  {
    if children != [] && FieldSetOf(children[0], criteria).Ok? {
      var tail := children[1..];
      FieldSetsFail(tail, criteria);
      if FieldSets(tail, criteria).Err? {
        var i :| 0 <= i < |tail| && FieldSetOf(tail[i], criteria).Err?;
        assert children[i + 1] == tail[i];
      }
    }
  }

  /** The filter of line 36: the non-empty field sets, in their original order. */
  function NonEmpty(sets: seq<FieldSet>): (r: seq<FieldSet>)
    ensures |r| <= |sets|
    ensures forall k :: 0 <= k < |r| ==> r[k] != map[]
  {
    if sets == [] then []
    else if sets[0] == map[] then NonEmpty(sets[1..])
    else [sets[0]] + NonEmpty(sets[1..])
  }

  /**
   * `r` lists `sets` at the strictly increasing positions `idx`, and those positions are
   * exactly the ones holding a non-empty field set.
   */
  ghost predicate SelectsNonEmpty(sets: seq<FieldSet>, r: seq<FieldSet>, idx: seq<int>)
  {
    && |idx| == |r|
    && (forall k :: 0 <= k < |idx| ==> 0 <= idx[k] < |sets| && r[k] == sets[idx[k]])
    && (forall k, l :: 0 <= k < l < |idx| ==> idx[k] < idx[l])
    && (forall i :: 0 <= i < |sets| ==> (sets[i] != map[] <==> i in idx))
  }

  /** The positions of the non-empty field sets, in increasing order. */
  function Positions(sets: seq<FieldSet>): seq<int>
  {
    if sets == [] then []
    else
      var rest := Positions(sets[1..]);
      (if sets[0] == map[] then [] else [0]) + seq(|rest|, k requires 0 <= k < |rest| => rest[k] + 1)
  }

  lemma {:induction false} PositionsPick(sets: seq<FieldSet>)
    ensures |Positions(sets)| == |NonEmpty(sets)|
    ensures forall k :: 0 <= k < |Positions(sets)| ==>
              0 <= Positions(sets)[k] < |sets| && NonEmpty(sets)[k] == sets[Positions(sets)[k]]
  {
    if sets != [] {
      PositionsPick(sets[1..]);
    }
  }

  lemma {:induction false} PositionsIncrease(sets: seq<FieldSet>)
    ensures forall k :: 0 <= k < |Positions(sets)| ==> Positions(sets)[k] >= 0
    ensures forall k, l :: 0 <= k < l < |Positions(sets)| ==> Positions(sets)[k] < Positions(sets)[l]
  {
    if sets != [] {
      PositionsIncrease(sets[1..]);
    }
  }

  lemma {:induction false} PositionsExact(sets: seq<FieldSet>)
    ensures forall i :: 0 <= i < |sets| ==> (sets[i] != map[] <==> i in Positions(sets))
  {
    if sets != [] {
      var tail := sets[1..];
      PositionsExact(tail);
      PositionsIncrease(tail);
      var rest := Positions(tail);
      forall i | 0 <= i < |sets|
        ensures sets[i] != map[] <==> i in Positions(sets)
      {
        if i > 0 {
          assert sets[i] == tail[i - 1];
          if i - 1 in rest {
            var k :| 0 <= k < |rest| && rest[k] == i - 1;
            assert Positions(sets)[|Positions(sets)| - |rest| + k] == i;
          }
        }
      }
    }
  }

  /** The filter keeps every non-empty field set, drops every empty one and keeps their order. */
  lemma NonEmptySelects(sets: seq<FieldSet>)
    ensures exists idx :: SelectsNonEmpty(sets, NonEmpty(sets), idx)
  {
    PositionsPick(sets);
    PositionsIncrease(sets);
    PositionsExact(sets);
    assert SelectsNonEmpty(sets, NonEmpty(sets), Positions(sets));
  }

  /** `_parse`: the non-empty field sets of the container's children. A missing container has no children. */
  function Parse(container: Option<Node>, criteria: Criteria): (r: Result<seq<FieldSet>, Error>)
    ensures container.None? ==> r == Err(NoAttribute("children"))
    ensures r.Ok? ==> container.Some? && container.value.Element?
    ensures r.Ok? ==> forall k :: 0 <= k < |r.value| ==> r.value[k] != map[]
    ensures r.Err? ==> r.error == NoAttribute("children") || r.error == FindOnText
  {
    match container
    case None => Err(NoAttribute("children"))
    case Some(Text(_)) => Err(NoAttribute("children"))
    case Some(Element(_, _, children)) =>
      match FieldSets(children, criteria)
      case Err(e) => Err(e)
      case Ok(sets) => Ok(NonEmpty(sets))
  }

  /** Some criterion finds an element under `node`. */
  predicate AnyMatch(node: Node, criteria: Criteria)
  {
    exists key :: key in criteria && HasMatch(node, criteria, key)
  }

  /**
   * `r` holds, in document order, the field set of every child of `children` for which at least one
   * criterion matched and of no other child; `idx` gives their positions.
   */
  ghost predicate SelectsMatching(children: seq<Node>, criteria: Criteria, r: seq<FieldSet>, idx: seq<int>)
  {
    && |idx| == |r|
    && (forall k :: 0 <= k < |idx| ==> 0 <= idx[k] < |children| && FieldSetOf(children[idx[k]], criteria) == Ok(r[k]))
    && (forall k, l :: 0 <= k < l < |idx| ==> idx[k] < idx[l])
    && (forall i :: 0 <= i < |children| ==> (i in idx <==> AnyMatch(children[i], criteria)))
  }

  /** What `_parse` returns: one field set per child some criterion matched, in order; so as many as such children. */
  lemma ParseSelectsMatchingChildren(container: Option<Node>, criteria: Criteria)
    requires Parse(container, criteria).Ok?
    ensures container.Some? && container.value.Element?
    ensures exists idx :: SelectsMatching(container.value.children, criteria, Parse(container, criteria).value, idx)
  {
    var children := container.value.children;
    var sets := FieldSets(children, criteria).value;
    FieldSetsPerChild(children, criteria);
    NonEmptySelects(sets);
    var idx :| SelectsNonEmpty(sets, NonEmpty(sets), idx);
    forall i | 0 <= i < |children|
      ensures sets[i] != map[] <==> AnyMatch(children[i], criteria)
    {
      assert FieldSetOf(children[i], criteria) == Ok(sets[i]);
      NonEmptyIffAnyMatch(children[i], criteria, sets[i]);
    }
    assert SelectsMatching(children, criteria, NonEmpty(sets), idx);
  }

  /** A child's field set is non-empty exactly when some criterion finds an element under it. */
  lemma NonEmptyIffAnyMatch(node: Node, criteria: Criteria, fields: FieldSet)
    requires FieldSetOf(node, criteria) == Ok(fields)
    ensures fields != map[] <==> AnyMatch(node, criteria)
  {
    if fields != map[] {
      var key :| key in fields;
      assert HasMatch(node, criteria, key);
    } else {
      forall key | key in criteria ensures !HasMatch(node, criteria, key) {
        assert key !in fields;
      }
    }
  }

  /** `content.table.tbody.children`: the rows of the sidecar's table body. */
  function TableRows(content: Option<Node>): (r: Result<seq<Node>, Error>)
    ensures r.Ok? ==> content.Some? && content.value.Element?
    ensures content.None? || content.value.Text? ==> r == Err(NoAttribute("table"))
    ensures r.Err? ==> r.error in {NoAttribute("table"), NoAttribute("tbody"), NoAttribute("children")}
  {
    if content.None? || content.value.Text? then Err(NoAttribute("table"))
    else
      match Find(content.value, Selector("table", None))
      case None => Err(NoAttribute("tbody"))
      case Some(table) =>
        match Find(table, Selector("tbody", None))
        case None => Err(NoAttribute("children"))
        case Some(tbody) => Ok(tbody.children)
  }

  /** `item.td.span.get_text()` for one row; a text row has no `td`. */
  function RowText(item: Node): (r: Result<string, Error>)
    ensures r.Err? ==> r.error in {NoAttribute("td"), NoAttribute("span"), NoAttribute("get_text")}
  {
    if item.Text? then Err(NoAttribute("td"))
    else
      match Find(item, Selector("td", None))
      case None => Err(NoAttribute("span"))
      case Some(td) =>
        match Find(td, Selector("span", None))
        case None => Err(NoAttribute("get_text"))
        case Some(span) => Ok(GetText(span))
  }

  /** The tuple of line 43: every row's text, in order; the first row that fails stops it. */
  function RowTexts(rows: seq<Node>): (r: Result<seq<string>, Error>)
    ensures r.Ok? ==> |r.value| == |rows| && forall i :: 0 <= i < |rows| ==> RowText(rows[i]) == Ok(r.value[i])
    ensures r.Err? ==> exists i :: 0 <= i < |rows| && RowText(rows[i]) == Err(r.error)
                                && forall j :: 0 <= j < i ==> RowText(rows[j]).Ok?
  {
    if rows == [] then Ok([])
    else
      match RowText(rows[0])
      case Err(e) => Err(e)
      case Ok(text) =>
        match RowTexts(rows[1..])
        case Err(e) =>
          assert forall j :: 1 <= j < |rows| ==> rows[j] == rows[1..][j - 1];
          Err(e)
        case Ok(rest) => Ok([text] + rest)
  }

  /**
   * `_get_additional_info`: the texts of at most the first two rows, in order. Every row is read
   * before the slice is taken, so a broken third row still fails.
   */
  function AdditionalInfo(content: Option<Node>): (r: Result<seq<string>, Error>)
    ensures r.Ok? <==> TableRows(content).Ok? && RowTexts(TableRows(content).value).Ok?
    ensures r.Ok? ==> var rows := TableRows(content).value;
                      && |r.value| == (if |rows| < 2 then |rows| else 2)
                      && (forall k :: 0 <= k < |r.value| ==> RowText(rows[k]) == Ok(r.value[k]))
                      && (forall i :: 0 <= i < |rows| ==> RowText(rows[i]).Ok?)
    ensures r.Err? ==> r.error.NoAttribute?
  {
    match TableRows(content)
    case Err(e) => Err(e)
    case Ok(rows) =>
      match RowTexts(rows)
      case Err(e) => Err(e)
      case Ok(data) => Ok(if |data| < 2 then data else data[..2])
  }
}
