/** The avatar background rule that the conversation list and the message
    bubbles both use: a fixed palette of eight colours, picked by the
    character code of the name's first character. */
module Avatar {
  import opened Wire
  import opened Text

  const Palette: seq<string> :=
    ["#10b981", "#3b82f6", "#8b5cf6", "#f59e0b", "#ef4444", "#ec4899", "#14b8a6", "#f97316"]

  /** `avatarColor(name)`: for an empty name `charCodeAt(0)` is NaN and the
      palette lookup yields `undefined`, modelled as `None`. */
  function AvatarColor(name: string): (color: Option<string>)
    ensures color.Some? <==> |name| > 0
    ensures color.Some? ==> color.value in Palette
    ensures color.Some? ==> color.value == Palette[CharCode(name[0]) % 8]
  {
    if |name| == 0 then None else Some(Palette[CharCode(name[0]) % |Palette|])
  }

  /** The colour depends on the first character only, and only on its code modulo 8. */
  lemma SameColourForCongruentInitials(a: string, b: string)
    requires |a| > 0 && |b| > 0
    requires CharCode(a[0]) % 8 == CharCode(b[0]) % 8
    ensures AvatarColor(a) == AvatarColor(b)
  {
  }

  /** Eight consecutive first characters use every palette entry exactly once. */
  lemma {:induction false} EveryColourReachable(c: char, k: nat)
    requires k < 8
    requires CharCode(c) % 8 == 0 && CharCode(c) + k < 0xD800
    ensures AvatarColor([(CharCode(c) + k) as char]) == Some(Palette[k])
  {
    var d := (CharCode(c) + k) as char;
    assert CharCode(d) % 8 == k;
  }
}
