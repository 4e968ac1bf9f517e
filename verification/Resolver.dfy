// References between modules (cli/resolver.py).
module Resolver {
  import opened Document
  import opened Text

  /** The text before the first dot: the module a contract reference names. */
  function ProviderOf(ref: string): string {
    ref[..IndexOf(ref, '.')]
  }

  /** `<module>.<contract>`, both parts non-empty. */
  function ParseContractRef(ref: string): Option<(string, string)> {
    var i := IndexOf(ref, '.');
    if 0 < i && i + 1 < |ref| then Some((ref[..i], ref[i + 1..])) else None
  }

  /** A reference reads as the text before its first dot and all after it, neither of them empty. */
  lemma ParsedIff(ref: string, id: string, name: string)
    ensures ParseContractRef(ref) == Some((id, name)) <==>
            ref == id + "." + name && '.' !in id && id != "" && name != ""
  {
    var i := IndexOf(ref, '.');
    if ref == id + "." + name && '.' !in id {
      assert ref[|id|] == '.' && forall k :: 0 <= k < |id| ==> ref[k] == id[k] && id[k] in id;
      assert i == |id| && ref[..i] == id && ref[i + 1..] == name;
    }
    if i < |ref| { assert ref == ref[..i] + "." + ref[i + 1..]; }
  }

  /** The first dot of a reference ends the provider's id exactly when the id has none. */
  lemma ProviderIff(id: string, name: string)
    ensures ProviderOf(id + "." + name) == id <==> '.' !in id
  {
    var ref := id + "." + name;
    assert ref[|id|] == '.';
    if i :| 0 <= i < |id| && id[i] == '.' {
      assert ref[i] == '.';
    } else {
      assert forall i :: 0 <= i < |id| ==> ref[i] == id[i];
      assert ref[..|id|] == id;
    }
  }
}
