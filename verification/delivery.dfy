/** The `--save` dispatch shared by the scripts: every output is written
    locally first; `gdrive` additionally uploads it and `azure` only prints
    that the target is not configured. The upload itself is foreign I/O and
    appears only as a requested action. */
module Delivery {
  import opened Wrappers

  datatype Action = Upload(path: string) | AzureSkipped

  /** The two independent `if save_option == ...` tests. At most one action
      results, an upload exactly for `gdrive` and the notice exactly for
      `azure`. */
  function SaveActions(option: Option<string>, path: string): (r: seq<Action>)
    ensures |r| <= 1
    ensures Upload(path) in r <==> option == Some("gdrive")
    ensures AzureSkipped in r <==> option == Some("azure")
    ensures option != Some("gdrive") && option != Some("azure") ==> r == []
  {
    (if option == Some("gdrive") then [Upload(path)] else [])
    + (if option == Some("azure") then [AzureSkipped] else [])
  }

  /** Scripts that only know the `gdrive` branch. */
  function DriveOnlyActions(option: Option<string>, path: string): (r: seq<Action>)
    ensures |r| <= 1
    ensures AzureSkipped !in r
    ensures r != [] <==> option == Some("gdrive")
  {
    if option == Some("gdrive") then [Upload(path)] else []
  }
}
