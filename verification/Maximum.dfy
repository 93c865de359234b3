/** The larger of two numbers: how nesting depths combine. */
module Maximum {

  function Max(a: nat, b: nat): nat {
    if a < b then b else a
  }
}
