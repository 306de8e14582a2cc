/** The moderation labels and the priority that picks the primary one. */
module ModerationLabels {

  datatype Label =
    | SAFE | SPAM | ADVERTISEMENT | INVITE | SCAM | TOXIC | PROFANITY
    | POLITICS_IRL | HATE | THREAT | NSFW | EVASION | FLOOD | URL

  /** Every label once. */
  const ALL: seq<Label> :=
    [SAFE, SPAM, ADVERTISEMENT, INVITE, SCAM, TOXIC, PROFANITY, POLITICS_IRL, HATE, THREAT, NSFW, EVASION, FLOOD, URL]

  lemma AllLabels()
    ensures forall l: Label :: l in ALL
    ensures forall i, j :: 0 <= i < j < |ALL| ==> ALL[i] != ALL[j]
  {
    forall l: Label ensures l in ALL {
      match l {
        case SAFE => assert ALL[0] == l;
        case SPAM => assert ALL[1] == l;
        case ADVERTISEMENT => assert ALL[2] == l;
        case INVITE => assert ALL[3] == l;
        case SCAM => assert ALL[4] == l;
        case TOXIC => assert ALL[5] == l;
        case PROFANITY => assert ALL[6] == l;
        case POLITICS_IRL => assert ALL[7] == l;
        case HATE => assert ALL[8] == l;
        case THREAT => assert ALL[9] == l;
        case NSFW => assert ALL[10] == l;
        case EVASION => assert ALL[11] == l;
        case FLOOD => assert ALL[12] == l;
        case URL => assert ALL[13] == l;
      }
    }
  }

  /** The position in the default priority list, where SAFE comes last. */
  function Priority(l: Label): nat {
    match l
    case THREAT => 0
    case HATE => 1
    case SCAM => 2
    case NSFW => 3
    case TOXIC => 4
    case POLITICS_IRL => 5
    case PROFANITY => 6
    case INVITE => 7
    case FLOOD => 8
    case SPAM => 9
    case ADVERTISEMENT => 10
    case URL => 11
    case EVASION => 12
    case SAFE => 13
  }

  /** The label of best priority, or SAFE when there is none. */
  function ResolvePrimaryLabel(labels: seq<Label>): (r: Label)
    ensures labels == [] ==> r == SAFE
    ensures labels != [] ==> r in labels && forall l :: l in labels ==> Priority(r) <= Priority(l)
  {
    if labels == [] then SAFE
    else
      var n := |labels| - 1;
      assert labels == labels[..n] + [labels[n]];
      if n == 0 then labels[0]
      else
        var r := ResolvePrimaryLabel(labels[..n]);
        if Priority(labels[n]) < Priority(r) then labels[n] else r
  }
}
