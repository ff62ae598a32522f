/** The CIDR subnetting quiz: four multiple-choice questions, an answer that
    locks once chosen, a running score and a result screen. */
module CidrQuiz {
  import opened Text
  import opened Prefix

  datatype Option<T> = None | Some(value: T)

  datatype Question = Question(
    id: int,
    question: string,
    options: seq<string>,
    correctAnswer: int,
    explanation: string)

  const Questions: seq<Question> := [
    Question(1, "What is the subnet mask for a /24 network?",
      ["255.255.0.0", "255.255.255.0", "255.255.255.128", "255.255.255.252"], 1,
      "/24 means 24 bits are set to 1. 11111111.11111111.11111111.00000000 = 255.255.255.0"),
    Question(2, "How many usable IP addresses are in a /28 subnet?",
      ["14", "16", "30", "6"], 0,
      "32 - 28 = 4 host bits. 2^4 = 16 total IPs. Usable = 16 - 2 (Network & Broadcast) = 14."),
    Question(3, "Which CIDR notation represents 255.255.255.192?",
      ["/25", "/26", "/27", "/28"], 1,
      "192 in binary is 11000000. That's 2 bits. 24 + 2 = /26."),
    Question(4, "What is the wildcard mask for /24?",
      ["0.0.0.255", "0.0.255.255", "0.255.255.255", "255.255.255.0"], 0,
      "Wildcard is the inverse of the subnet mask. 255.255.255.255 - 255.255.255.0 = 0.0.0.255.")
  ]

  /** Every question has an answer key that indexes its options. */
  lemma AnswerKeysInRange()
    ensures |Questions| == 4
    ensures forall q :: 0 <= q < |Questions| ==>
      0 <= Questions[q].correctAnswer < |Questions[q].options|
  {
  }

  /** Whether an option is what prefix arithmetic says the answer to
      question `q` is. */
  function Agrees(q: nat, option: string): bool
    requires q < 4
  {
    match q
    case 0 => option == DottedQuad(Mask(24))
    case 1 => option == NatToString(UsableHosts(28))
    case 2 => exists p :: p <= 32 && Mask(p) == FromOctets(255, 255, 255, 192) && option == PrefixNotation(p)
    case 3 => option == DottedQuad(Wildcard(24))
  }

  /** The masks and counts the four questions ask about. */
  lemma Mask24Value()
    ensures Mask(24) == FromOctets(255, 255, 255, 0)
  {
    Pow2Values();
    MaskClosedForm(24);
  }

  lemma Mask26Value()
    ensures Mask(26) == FromOctets(255, 255, 255, 192)
  {
    Pow2Values();
    MaskClosedForm(26);
  }

  lemma Wildcard24Value()
    ensures Wildcard(24) == FromOctets(0, 0, 0, 255)
  {
    Pow2Values();
    WildcardIsHostBits(24);
  }

  lemma UsableHosts28Value()
    ensures UsableHosts(28) == 14
  {
    Pow2Values();
  }

  /** Decimal renderings of the numbers the options show, each fixed once
      here so that the agreement lemmas below reason about strings only. */
  lemma Renderings()
    ensures NatToString(255) == "255" && NatToString(0) == "0"
    ensures NatToString(14) == "14" && NatToString(26) == "26"
  {
  }

  /** An address given by its octets, written out from their renderings. */
  lemma QuadOfOctets(x: nat, a: nat, b: nat, c: nat, d: nat)
    requires a < 256 && b < 256 && c < 256 && d < 256 && x == FromOctets(a, b, c, d)
    ensures DottedQuad(x) == NatToString(a) + "." + NatToString(b) + "." + NatToString(c) + "." + NatToString(d)
  {
    DottedQuadOctets(a, b, c, d);
  }

  /** The two dotted quads, joined from their octet strings. The join is kept
      apart from the address arithmetic it follows, which it would otherwise
      slow down considerably. */
  lemma JoinedMask(octet: string, zero: string)
    requires octet == "255" && zero == "0"
    ensures octet + "." + octet + "." + octet + "." + zero == "255.255.255.0"
    ensures zero + "." + zero + "." + zero + "." + octet == "0.0.0.255"
  {
  }

  /** 255.255.255.0 is the mask of a /24 network. */
  lemma RenderedMask24()
    ensures DottedQuad(Mask(24)) == "255.255.255.0"
  {
    Mask24Value();
    QuadOfOctets(Mask(24), 255, 255, 255, 0);
    Renderings();
    JoinedMask(NatToString(255), NatToString(0));
  }

  /** 0.0.0.255 is the wildcard of a /24 network. */
  lemma RenderedWildcard24()
    ensures DottedQuad(Wildcard(24)) == "0.0.0.255"
  {
    Wildcard24Value();
    QuadOfOctets(Wildcard(24), 0, 0, 0, 255);
    Renderings();
    JoinedMask(NatToString(255), NatToString(0));
  }

  /** Only the /26 prefix has the mask 255.255.255.192. */
  lemma OnlySlash26(p: nat)
    requires p <= 32 && Mask(p) == FromOctets(255, 255, 255, 192)
    ensures p == 26
  {
    Mask26Value();
    MaskInjective(p, 26);
  }

  /** What the arithmetic gives for each question, written out. */
  const ComputedAnswers: seq<string> := ["255.255.255.0", "14", "/26", "0.0.0.255"]

  lemma SubnetMaskAgrees(option: string)
    ensures Agrees(0, option) <==> option == "255.255.255.0"
  {
    RenderedMask24();
  }

  lemma UsableHostsAgrees(option: string)
    ensures Agrees(1, option) <==> option == "14"
  {
    UsableHosts28Value();
    Renderings();
  }

  lemma PrefixOfMaskAgrees(option: string)
    ensures Agrees(2, option) <==> option == "/26"
  {
    Mask26Value();
    Renderings();
    assert PrefixNotation(26) == "/26";
    if Agrees(2, option) {
      var p :| p <= 32 && Mask(p) == FromOctets(255, 255, 255, 192) && option == PrefixNotation(p);
      OnlySlash26(p);
    }
  }

  lemma WildcardAgrees(option: string)
    ensures Agrees(3, option) <==> option == "0.0.0.255"
  {
    RenderedWildcard24();
  }

  /** An option agrees with the arithmetic exactly when it is the computed
      answer. */
  lemma AgreesIff(q: nat, option: string)
    requires q < 4
    ensures Agrees(q, option) <==> option == ComputedAnswers[q]
  {
    if q == 0 {
      SubnetMaskAgrees(option);
    } else if q == 1 {
      UsableHostsAgrees(option);
    } else if q == 2 {
      PrefixOfMaskAgrees(option);
    } else {
      WildcardAgrees(option);
    }
  }

  /** Each question lists its computed answer once, at the answer key. */
  lemma KeyedOption(q: nat, k: nat)
    requires q < |Questions| && k < |Questions[q].options|
    ensures q < 4 && (Questions[q].options[k] == ComputedAnswers[q] <==> k == Questions[q].correctAnswer)
  {
  }

  /** The answer key agrees with prefix arithmetic, and no other option does. */
  lemma AnswerKeyAgrees(q: nat, k: nat)
    requires q < |Questions| && k < |Questions[q].options|
    ensures q < 4 && (Agrees(q, Questions[q].options[k]) <==> k == Questions[q].correctAnswer)
  {
    KeyedOption(q, k);
    AgreesIff(q, Questions[q].options[k]);
  }

  /** The wildcard of /24 is the bitwise NOT, within 32 bits, of its mask:
      both are read off the same 32-bit word. */
  lemma Wildcard24IsNot()
    ensures Mask(24) == (0xFFFF_FF00 as bv32) as int
    ensures Wildcard(24) == (!(0xFFFF_FF00 as bv32)) as int
  {
    Mask24Value();
    Wildcard24Value();
  }

  /** One mounted quiz. */
  class Quiz {
    var currentQuestion: nat
    var selectedOption: Option<int>
    var isCorrect: Option<bool>
    var score: nat
    var showResult: bool

    /** The question is in range, a verdict is shown exactly when an option is
        selected and it is that option's verdict, and the score counts at
        most the questions answered so far. */
    ghost predicate Valid()
      reads this
    {
      && currentQuestion < |Questions|
      && (selectedOption.None? <==> isCorrect.None?)
      && (selectedOption.Some? ==>
            isCorrect == Some(selectedOption.value == Questions[currentQuestion].correctAnswer))
      && score <= currentQuestion + (if selectedOption.Some? then 1 else 0)
    }

    constructor ()
      ensures Valid()
      ensures currentQuestion == 0 && selectedOption == None && isCorrect == None && score == 0 && !showResult
    {
      currentQuestion := 0;
      selectedOption := None;
      isCorrect := None;
      score := 0;
      showResult := false;
    }

    /** Choosing option `index`; once an option is chosen the answer is locked. */
    method HandleOptionClick(index: int)
      requires Valid()
      modifies this
      ensures Valid()
      ensures currentQuestion == old(currentQuestion) && showResult == old(showResult)
      ensures old(selectedOption).Some? ==>
        selectedOption == old(selectedOption) && isCorrect == old(isCorrect) && score == old(score)
      ensures old(selectedOption).None? ==>
        && selectedOption == Some(index)
        && isCorrect == Some(index == Questions[currentQuestion].correctAnswer)
        && score == if index == Questions[currentQuestion].correctAnswer then old(score) + 1 else old(score)
    {
      if selectedOption.Some? {
        return;
      }
      selectedOption := Some(index);
      var correct := index == Questions[currentQuestion].correctAnswer;
      isCorrect := Some(correct);
      if correct {
        score := score + 1;
      }
    }

    /** "Next Question", or "See Results" on the last question. */
    method NextQuestion()
      requires Valid()
      modifies this
      ensures Valid()
      ensures score == old(score)
      ensures old(currentQuestion) < |Questions| - 1 ==>
        currentQuestion == old(currentQuestion) + 1 && selectedOption == None && isCorrect == None
          && showResult == old(showResult)
      ensures old(currentQuestion) == |Questions| - 1 ==>
        currentQuestion == old(currentQuestion) && selectedOption == old(selectedOption)
          && isCorrect == old(isCorrect) && showResult
    {
      if currentQuestion < |Questions| - 1 {
        currentQuestion := currentQuestion + 1;
        selectedOption := None;
        isCorrect := None;
      } else {
        showResult := true;
      }
    }

    /** "Try Again". */
    method ResetQuiz()
      modifies this
      ensures Valid()
      ensures currentQuestion == 0 && selectedOption == None && isCorrect == None && score == 0 && !showResult
    {
      currentQuestion := 0;
      selectedOption := None;
      isCorrect := None;
      score := 0;
      showResult := false;
    }

    /** The result screen: `score / total`, and "Perfect!" when they are equal. */
    method Result() returns (finalScore: nat, total: nat, perfect: bool)
      requires Valid()
      ensures finalScore == score && total == |Questions|
      ensures finalScore <= total
      ensures perfect <==> finalScore == total
    {
      finalScore, total := score, |Questions|;
      perfect := finalScore == total;
    }
  }
}
