/** `raw_data_display`: the table shown five rows at a time for as long as the user answers "yes". */
module RawDisplay {
  import opened Trips

  const PAGE_SIZE: nat := 5

  function Min(a: int, b: int): int {
    if a <= b then a else b
  }

  /** `data.iloc[start:start + 5]`; iloc cuts both bounds down to the table's length. */
  function Page(rows: seq<Trip>, start: nat): (p: seq<Trip>)
    ensures |p| <= PAGE_SIZE
    ensures start >= |rows| ==> p == []
    ensures start + PAGE_SIZE <= |rows| ==> |p| == PAGE_SIZE
  {
    rows[Min(start, |rows|)..Min(start + PAGE_SIZE, |rows|)]
  }

  /** The first k pages, in order. */
  function Pages(rows: seq<Trip>, k: nat): seq<seq<Trip>> {
    if k == 0 then [] else Pages(rows, k - 1) + [Page(rows, (k - 1) * PAGE_SIZE)]
  }

  function Flatten(pages: seq<seq<Trip>>): seq<Trip> {
    if pages == [] then [] else Flatten(pages[..|pages| - 1]) + pages[|pages| - 1]
  }

  /** The first k pages together are the first 5k rows, or all rows once the table runs out. */
  lemma {:induction false} PagesTile(rows: seq<Trip>, k: nat)
    ensures |Pages(rows, k)| == k
    ensures Flatten(Pages(rows, k)) == rows[..Min(k * PAGE_SIZE, |rows|)]
  {
    if k > 0 {
      PagesTile(rows, k - 1);
      var before := Pages(rows, k - 1);
      var start := (k - 1) * PAGE_SIZE;
      assert Pages(rows, k)[..k - 1] == before;
      assert rows[..Min(start, |rows|)] + Page(rows, start) == rows[..Min(k * PAGE_SIZE, |rows|)];
    }
  }

  /** How many "yes" answers come before the first "no" (or the end of the answers). */
  function YesBeforeNo(answers: seq<string>): nat {
    if answers == [] || answers[0] == "no" then 0
    else (if answers[0] == "yes" then 1 else 0) + YesBeforeNo(answers[1..])
  }

  /**
   * The prompt loop, with the user's answers (already stripped and lower-cased)
   * given in advance: "yes" shows the next page, "no" stops, anything else is
   * asked again. Returns the pages shown.
   */
  method RawDataDisplay(rows: seq<Trip>, answers: seq<string>) returns (shown: seq<seq<Trip>>)
    ensures shown == Pages(rows, YesBeforeNo(answers))
    ensures |shown| == YesBeforeNo(answers)
    ensures Flatten(shown) == rows[..Min(YesBeforeNo(answers) * PAGE_SIZE, |rows|)]
  {
    var startLoc := 0;
    shown := [];
    var i := 0;
    while i < |answers|
      invariant 0 <= i <= |answers|
      invariant startLoc == |shown| * PAGE_SIZE
      invariant shown == Pages(rows, |shown|)
      invariant |shown| + YesBeforeNo(answers[i..]) == YesBeforeNo(answers)
    {
      var answer := answers[i];
      assert answers[i..] == [answer] + answers[i + 1..];
      if answer == "yes" {
        shown := shown + [Page(rows, startLoc)];
        startLoc := startLoc + PAGE_SIZE;
      } else if answer == "no" {
        break;
      }
      i := i + 1;
    }
    PagesTile(rows, |shown|);
  }
}
