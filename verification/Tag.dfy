// Outbound tags name clients: internal/services/singbox/tag.go.
module Tag {
  import opened Text

  const PREFIX: string := "user-"

  function ClientOutboundTag(id: int): string {
    PREFIX + FormatInt(id)
  }

  function ParseClientOutboundTag(tag: string): Option<int> {
    match CutPrefix(tag, PREFIX)
    case None => None
    case Some(rest) => ParseInt(rest)
  }

  // A generated tag parses back to the client it was made for.
  lemma {:induction false} TagRoundTrip(id: int)
    requires IsInt64(id)
    ensures ParseClientOutboundTag(ClientOutboundTag(id)) == Some(id) && ClientOutboundTag(id) == "user-" + FormatInt(id)
  {
    assert ClientOutboundTag(id)[|PREFIX|..] == FormatInt(id);
    ParseFormat(id);
  }

  lemma {:induction false} TagInjective(m: int, n: int)
    requires IsInt64(m) && IsInt64(n) && ClientOutboundTag(m) == ClientOutboundTag(n)
    ensures m == n
  {
    TagRoundTrip(m);
    TagRoundTrip(n);
  }

  // The documentation promises that foreign tags are rejected. The code
  // accepts every spelling of the number: an accepted tag is one the panel
  // generates exactly when its number is written canonically.
  lemma {:induction false} AcceptedTagIsGeneratedIff(tag: string)
    requires ParseClientOutboundTag(tag).Some?
    ensures tag == ClientOutboundTag(ParseClientOutboundTag(tag).value) <==> Canonical(tag[5..])
    ensures tag[..5] == "user-" && ParseInt(tag[5..]).Some?
  {
    var rest := tag[|PREFIX|..];
    FormatParse(rest);
    assert tag == PREFIX + rest;
    var id := ParseClientOutboundTag(tag).value;
    if tag == ClientOutboundTag(id) {
      assert rest == ClientOutboundTag(id)[|PREFIX|..] == FormatInt(id);
    }
  }

  lemma {:induction false} ForeignTagAccepted()
    ensures ParseClientOutboundTag("user-+07") == Some(7) && ClientOutboundTag(7) != "user-+07"
  {
    var rest := "user-+07"[|PREFIX|..];
    assert rest == "+07";
    assert rest[1..] == "07";
    assert "07"[..1] == "0" && "0"[..0] == "";
    assert Value("07") == 7;
    assert ClientOutboundTag(7)[|PREFIX|..] == FormatInt(7);
    assert |FormatInt(7)| == 1;
  }
}
