/** Codes and tokens as text, `userId:grantId:secret`, and how the endpoints take them apart
    (repos/workers-oauth-provider/src/oauth-provider.ts). */
module TokenText {
  import opened OAuthTypes
  import opened GrantLifecycle
  import opened Keys
  import opened Texts

  function AsText(b: Bearer): string { b.userId + ":" + b.grantId + ":" + b.secret }

  /** A presented text is missing, or has three parts, or is malformed. */
  function Parse(text: string): Presented {
    var parts := SplitAt(text, ':');
    if text == "" then Missing
    else if |parts| != 3 then Malformed
    else Parsed(Bearer(parts[0], parts[1], parts[2]))
  }

  lemma PartsOfText(b: Bearer)
    requires NoColon(b.grantId) && NoColon(b.secret)
    ensures SplitAt(AsText(b), ':') == SplitAt(b.userId, ':') + [b.grantId, b.secret]
  {
    var head := b.userId + ":" + b.grantId;
    assert AsText(b) == head + [':'] + b.secret && head == b.userId + [':'] + b.grantId;
    SplitAtSeparator(head, b.secret, ':');
    SplitAtSeparator(b.userId, b.grantId, ':');
    OnePart(b.grantId, ':');
    OnePart(b.secret, ':');
  }

  /** Grant ids and secrets are drawn from an alphabet without colons, so a text that was handed out is
      read back as what it stands for exactly when the user id has no colon either. */
  lemma ReadsBackExactlyWhen(b: Bearer)
    requires NoColon(b.grantId) && NoColon(b.secret)
    ensures Parse(AsText(b)) == Parsed(b) <==> NoColon(b.userId)
    ensures !NoColon(b.userId) ==> Parse(AsText(b)) == Malformed
  {
    PartsOfText(b);
    ManyPartsMeanSeparator(b.userId, ':');
    if NoColon(b.userId) { OnePart(b.userId, ':'); }
  }

  /** What is read from a text stands for that very text. */
  lemma ReadingIsExact(text: string)
    ensures Parse(text).Parsed? ==> AsText(Parse(text).token) == text
  {
    JoinSplit(text, ":");
    SplitAtIsSplit(text, ':');
    var parts := SplitAt(text, ':');
    if |parts| == 3 {
      assert Join(parts, ":") == parts[0] + ":" + (parts[1] + ":" + Join([parts[2]], ":")) by {
        assert parts[1..][1..] == [parts[2]];
      }
      assert parts[0] + ":" + (parts[1] + ":" + parts[2]) == parts[0] + ":" + parts[1] + ":" + parts[2];
    }
  }

  /** No part of what is read has a colon. */
  lemma ReadPartsAreColonFree(text: string)
    ensures Parse(text).Parsed? ==>
      var b := Parse(text).token; NoColon(b.userId) && NoColon(b.grantId) && NoColon(b.secret)
  {
    var parts := SplitAt(text, ':');
    if |parts| == 3 { assert parts[0] in parts && parts[1] in parts && parts[2] in parts; }
  }
}
