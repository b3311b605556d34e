/** The labelling web app: the article records loaded from `bm.json` at start-up,
    the `/get_data` handler that serves one random unlabelled record, and the
    `/submit` handler that labels a record and rewrites the file. */
module Labeling {
  import opened Text
  import opened Pages
  import opened Records

  /** One element of the JSON list: an article record and, once labelled, its
      `"label"` key. */
  datatype Entry = Entry(article: Article, labelText: Option<string>)

  /** The JSON object `/get_data` returns. */
  datatype Sent = Sent(id: nat, cat: string, title: string, content: string, url: string, remain: string)

  /** The indices of the records without a `"label"` key, in list order. */
  function UnlabeledIds(data: seq<Entry>): (ids: seq<nat>)
    ensures |ids| <= |data|
    ensures forall k :: 0 <= k < |ids| ==> ids[k] < |data| && data[ids[k]].labelText.None?
    ensures forall i :: 0 <= i < |data| && data[i].labelText.None? ==> i in ids
    ensures forall k, l :: 0 <= k < l < |ids| ==> ids[k] < ids[l]
    decreases |data|
  {
    if data == [] then []
    else
      var n := |data| - 1;
      var earlier := UnlabeledIds(data[..n]);
      assert forall k :: 0 <= k < |earlier| ==> data[earlier[k]] == data[..n][earlier[k]];
      earlier + (if data[n].labelText.None? then [n] else [])
  }

  /** The text shown for labelling: the description and a space, when there is a
      description, followed by the detail. */
  function Content(a: Article): (c: string)
    ensures a.desc == "" ==> c == a.detail
    ensures a.desc != "" ==> |c| == |a.desc| + 1 + |a.detail|
    ensures a.desc != "" ==> c[..|a.desc|] == a.desc && c[|a.desc|] == ' ' && c[|a.desc| + 1..] == a.detail
  {
    (if a.desc != "" then a.desc + " " else "") + a.detail
  }

  /** `"{unlabelled}/{total}"`. */
  function Remain(data: seq<Entry>): string {
    Decimal(|UnlabeledIds(data)|) + "/" + Decimal(|data|)
  }

  /** Reading a progress string back: the two decimal numbers around its first `/`. */
  function ParseRemain(s: string): Option<(nat, nat)> {
    var k := IndexOf(s, '/');
    if k == |s| then None
    else
      var left, right := s[..k], s[k + 1..];
      if (forall j :: 0 <= j < |left| ==> IsDigit(left[j])) && (forall j :: 0 <= j < |right| ==> IsDigit(right[j]))
      then Some((DecimalValue(left), DecimalValue(right)))
      else None
  }

  /** The progress string carries the two counts unambiguously, and the first never
      exceeds the second. */
  lemma RemainRoundTrip(data: seq<Entry>)
    ensures ParseRemain(Remain(data)) == Some((|UnlabeledIds(data)|, |data|))
    ensures |UnlabeledIds(data)| <= |data|
  {
    var a, b := Decimal(|UnlabeledIds(data)|), Decimal(|data|);
    assert forall j :: 0 <= j < |a| ==> a[j] != '/' by {
      forall j | 0 <= j < |a| ensures a[j] != '/' {
        assert IsDigit(a[j]);
      }
    }
    IndexOfAfter(a, '/', b);
    var s := a + ['/'] + b;
    assert Remain(data) == s;
    assert s[..|a|] == a;
    assert s[|a| + 1..] == b;
    DecimalRoundTrip(|UnlabeledIds(data)|);
    DecimalRoundTrip(|data|);
  }

  /** Python's `data[id]`: a valid index lies in `-n .. n - 1`, and a negative one
      counts from the end. */
  function PyIndex(id: int, n: nat): (i: nat)
    requires -(n as int) <= id < n
    ensures i < n
    ensures id >= 0 ==> i == id
    ensures id < 0 ==> i + -id == n
  {
    if id >= 0 then id else n + id
  }

  /** `data[int(id)]["label"] = label`: `None` when the index is out of range (the
      assignment raises `IndexError` and nothing changes). Otherwise only that record
      changes, and only its label, which is set or overwritten. */
  function Relabel(data: seq<Entry>, id: int, labelText: string): (r: Option<seq<Entry>>)
    ensures r.Some? <==> -|data| <= id < |data|
    ensures r.Some? ==>
              && |r.value| == |data|
              && var i := PyIndex(id, |data|);
                 && r.value[i].article == data[i].article && r.value[i].labelText == Some(labelText)
                 && forall j :: 0 <= j < |data| && j != i ==> r.value[j] == data[j]
  {
    if -|data| <= id < |data| then
      var i := PyIndex(id, |data|);
      Some(data[i := Entry(data[i].article, Some(labelText))])
    else None
  }

  /** Changing one record changes the count of unlabelled records by what that record
      contributes before and after. */
  lemma {:induction false} UnlabeledCountUpdate(data: seq<Entry>, i: nat, e: Entry)
    requires i < |data|
    ensures |UnlabeledIds(data[i := e])| + (if data[i].labelText.None? then 1 else 0)
            == |UnlabeledIds(data)| + (if e.labelText.None? then 1 else 0)
    decreases |data|
  {
    var n := |data| - 1;
    var updated := data[i := e];
    if i == n {
      assert updated[..n] == data[..n];
    } else {
      assert updated[..n] == data[..n][i := e];
      UnlabeledCountUpdate(data[..n], i, e);
    }
  }

  /** After a successful submit, the record is no longer offered and the count of
      unlabelled records drops by one exactly when it had no label before. */
  lemma SubmitLabels(data: seq<Entry>, id: int, labelText: string)
    requires -|data| <= id < |data|
    ensures var i := PyIndex(id, |data|);
            var after := Relabel(data, id, labelText).value;
            && i !in UnlabeledIds(after)
            && |UnlabeledIds(after)| == |UnlabeledIds(data)| - (if data[i].labelText.None? then 1 else 0)
  {
    var i := PyIndex(id, |data|);
    var after := Relabel(data, id, labelText).value;
    assert after == data[i := Entry(data[i].article, Some(labelText))];
    UnlabeledCountUpdate(data, i, Entry(data[i].article, Some(labelText)));
    assert forall k :: 0 <= k < |UnlabeledIds(after)| ==> UnlabeledIds(after)[k] != i;
  }

  /** A later label for the same record replaces an earlier one. */
  lemma RelabelOverwrites(data: seq<Entry>, id: int, first: string, second: string)
    requires -|data| <= id < |data|
    ensures Relabel(Relabel(data, id, first).value, id, second) == Relabel(data, id, second)
  {
    var i := PyIndex(id, |data|);
    var once := Relabel(data, id, first).value;
    assert once == data[i := Entry(data[i].article, Some(first))];
    assert once[i := Entry(once[i].article, Some(second))] == data[i := Entry(data[i].article, Some(second))];
  }

  /** A negative id labels the record that many places from the end. */
  lemma NegativeId(data: seq<Entry>, back: int, labelText: string)
    requires 0 < back <= |data|
    ensures Relabel(data, -back, labelText) == Relabel(data, |data| - back, labelText)
  {
  }

  /** A VnExpress record has no description, so its content is its detail. The app
      as written loads `bm.json`, so this applies only when it is pointed at
      `vne.json` instead; for BaoMoi records the description is shown first. */
  lemma {:induction false} VneContent(web: Web, addresses: seq<Url>)
    ensures forall a :: a in Harvest(VnExpress, web, addresses) ==> Content(a) == a.detail
    decreases |addresses|
  {
    if addresses != [] {
      var n := |addresses| - 1;
      VneContent(web, addresses[..n]);
      forall a | a in RecordAt(VnExpress, web, addresses[n]) ensures a.desc == "" {
        var page := web(addresses[n]).page;
        assert Extract(VnExpress, addresses[n], page) == Some(a);
      }
    }
  }

  /** The app's state: the list loaded from `bm.json`, and that file as last
      written. */
  class LabelStore {
    var data: seq<Entry>
    var file: seq<Entry>

    /** Start-up: the list is what the file holds. */
    constructor (stored: seq<Entry>)
      ensures data == stored && file == stored
    {
      data := stored;
      file := stored;
    }

    /** `/get_data`: `random.choice` over the unlabelled records; `pick` is the
        position it draws, and `None` is the `IndexError` it raises when every
        record is labelled. */
    function GetData(pick: nat): (r: Option<Sent>)
      reads this
      requires UnlabeledIds(data) != [] ==> pick < |UnlabeledIds(data)|
      ensures r.None? <==> forall i :: 0 <= i < |data| ==> data[i].labelText.Some?
      ensures r.Some? ==>
                && r.value.id < |data| && data[r.value.id].labelText.None?
                && r.value.id == UnlabeledIds(data)[pick]
                && var a := data[r.value.id].article;
                   && r.value.cat == a.cat && r.value.title == a.title && r.value.url == a.url
                   && r.value.content == Content(a)
                   && r.value.remain == Remain(data)
    {
      var ids := UnlabeledIds(data);
      if ids == [] then None
      else
        var id := ids[pick];
        var a := data[id].article;
        Some(Sent(id, a.cat, a.title, Content(a), a.url, Remain(data)))
    }

    /** `/submit`: label record `id`; the whole list is then written back to the
        file. An out-of-range id raises before anything changes. */
    method Submit(id: int, labelText: string) returns (ok: bool)
      modifies this
      ensures ok <==> -|old(data)| <= id < |old(data)|
      ensures ok ==> data == Relabel(old(data), id, labelText).value && file == data
      ensures !ok ==> data == old(data) && file == old(file)
    {
      var n := |data|;
      if !(-n <= id < n) {
        return false;
      }
      var i := if id >= 0 then id else n + id;
      data := data[i := Entry(data[i].article, Some(labelText))];
      file := data;
      ok := true;
    }
  }
}
