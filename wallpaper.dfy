/** The fixed table of `OrbifoldSymbol::wallpaperLookup`: exact symbol text to
    wallpaper-group name. Matching is on the raw string, whitespace included. */
module Wallpaper {
  import opened Results
  import Scanning

  const Table: map<string, string> := map[
    "*632" := "p6m",
    "632" := "p6",
    "*442" := "p4m",
    "4*2" := "p4g",
    "442" := "p4",
    "*333" := "p3m1",
    "3*3" := "p31m",
    "333" := "p3",
    "*2222" := "pmm",
    "2*22" := "pmg",
    "22*" := "pgg",
    "2222" := "p2",
    "*22" := "cmm",
    "*x" := "cm",
    "xx" := "pg",
    "o" := "p1",
    "*" := "pm"
  ]

  /** `wallpaperGroup` on the stored symbol text: the table entry, or the
      "not recognized" error for any other string. */
  function Classify(symbol: string): (r: Result<string>)
    ensures r.Success? <==> symbol in Table
    ensures r.Success? ==> r.value == Table[symbol] && Scanning.Accepted(symbol)
    ensures r.Failure? ==> r.error == UnrecognizedSymbol
  {
    KeysAreAccepted();
    if symbol in Table then Success(Table[symbol]) else Failure(UnrecognizedSymbol)
  }

  /** Every key is spelled in the parser's alphabet, so every key parses. */
  lemma KeysAreAccepted()
    ensures forall key :: key in Table ==> Scanning.Accepted(key)
    ensures forall key :: key in Table ==> Scanning.ParseSpec(key).Success?
  {
    forall key | key in Table
      ensures Scanning.Accepted(key) && Scanning.ParseSpec(key).Success?
    {
      Scanning.ParseSucceedsIffAccepted(key);
    }
  }
}
