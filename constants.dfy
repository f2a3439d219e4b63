/**
 * The built-in catalogue (constants.ts): the subject list, the two exams
 * generated per subject, the learning module generated per subject, the
 * seed statistics and the built-in question bank.
 */
module Constants {
  import opened Js
  import opened Types

  /** `SUBJECTS_LIST`: the subjects of the course, in catalogue order. */
  const SubjectsList: seq<string> := [
      "Administração Aplicada à Engenharia",
      "Administração de Novos Negócios",
      "Álgebra Linear",
      "Análise de Sistemas Elétricos I",
      "Análise de Sistemas Elétricos II",
      "Análise e Previsão de Desem. de Sist. e de Potência",
      "Análise Textual",
      "Arquitetura e Organização de Computadores",
      "Automação de Processos e Robótica",
      "Cálculo 1",
      "Cálculo 2",
      "Cálculo 3",
      "Cálculo 4",
      "Cálculo Diferencial e Integral I",
      "Cálculo Diferencial e Integral II",
      "Cálculo Diferencial e Integral III",
      "Cálculo Numérico",
      "Cálculo Vetorial e Geometria Analítica",
      "Ciências do Ambiente",
      "Circuitos Digitais",
      "Circuitos Digitais 1",
      "Circuitos Elétricos I",
      "Circuitos Elétricos II",
      "Circuitos Elétricos de Corrente Alternada",
      "Circuitos Elétricos de Corrente Contínua",
      "Circuitos Especiais",
      "Competências Gerenciais",
      "Comunicações de Dados",
      "Concepção e Projeto de Engenharia Elétrica",
      "Controle e Servomecanismos I",
      "Controle e Servomecanismos II",
      "Conversão Eletromecânica de Energia I",
      "Conversão Eletromecânica de Energia II",
      "Conversão Eletromecânica de Energia e Transformadores",
      "Desenho Técnico",
      "Distribuição de Energia Elétrica",
      "Economia Aplicada à Engenharia",
      "Economia do Meio Ambiente e Financ. de Projetos",
      "Educação Ambiental",
      "Eficiência Energética I",
      "Eletricidade Aplicada",
      "Eletromagnetismo",
      "Eletromagnetismo I",
      "Eletrônica",
      "Eletrônica de Potência",
      "Engenharia e Meio Ambiente",
      "Ergonomia, Higiene e Segurança do Trabalho",
      "Estágio Curricular em Engenharia Elétrica",
      "Estágio Supervisionado em Engenharia Elétrica",
      "Estatística Básica",
      "Estruturas de Dados",
      "Fenômenos de Transportes",
      "Física Experimental I",
      "Física Experimental II",
      "Física Experimental III",
      "Física I",
      "Física II",
      "Física III",
      "Física Teórica I",
      "Física Teórica II",
      "Física Teórica III",
      "Fundamentos de Cálculo e Geometria",
      "Fundamentos de Desenho Técnico II",
      "Fundamentos de Economia",
      "Geração de Energia Elétrica",
      "Gerenciamento de Riscos Ambientais",
      "Gestão e Legislação Ambiental",
      "Inovação Tecnológica",
      "Instalações de Baixa Tensão",
      "Instalações Elétricas I",
      "Instalações Elétricas II",
      "Instalações Elétricas Industriais",
      "Instrumentação e Medidas Elétricas",
      "Introdução à Administração",
      "Introdução à Ciência dos Materiais",
      "Introdução ao Cálculo Diferencial",
      "Introdução aos Sistemas de Energia Elétrica",
      "Introdução às Redes de Computadores I",
      "Laboratório de Circuitos Elétricos",
      "Laboratório de Eletrônica",
      "Laboratório de Engenharia Elétrica e Computação",
      "Laboratório de Máquinas Elétricas",
      "Linguagem de Programação para Controle e Automação",
      "Lógica de Programação",
      "Máquinas Elétricas",
      "Máquinas Elétricas e Acionamentos",
      "Materiais Elétricos",
      "Mecânica Geral",
      "Mecânica Geral V",
      "Metodologia Científica",
      "Métodos Numéricos",
      "Modelagem e Análise de Sistemas Dinâmicos",
      "Planejamento de Carreira e Sucesso Profissional",
      "Planejamento Energético",
      "Probabilidade e Estatística Aplicada à Engenharia",
      "Processamento Digital de Sinais",
      "Programação de Computadores",
      "Projeto de Sistemas",
      "Projeto Final de Engenharia Elétrica IV",
      "Projeto Integrador de Máquinas Elétricas e Eletrônica de Potência",
      "Química Geral",
      "Química Geral Tecnológica",
      "Redes de Computadores I",
      "Redes Industriais e Sistemas Supervisórios",
      "Resistência dos Materiais",
      "Resistência dos Materiais I",
      "Seminários Integrados em Engenharia Elétrica",
      "Sinais e Sistemas",
      "Sistemas a Microprocessadores",
      "Sistemas de Computação",
      "Sistemas de Controle I",
      "Sistemas de Proteção e Medição",
      "Subestação",
      "Subestações de Energia Elétrica",
      "Sustentabilidade",
      "TCC 1 em Engenharia",
      "TCC 2 em Engenharia Elétrica",
      "Termodinâmica I",
      "Tópicos em Libras: Surdez e Inclusão",
      "Tópicos Especiais em Energias Renováveis",
      "Transmissão de Energia Elétrica I",
      "Transmissão de Energia Elétrica II"
    ]

  lemma SubjectsListSize()
    ensures |SubjectsList| == 122
  {
  }

  // ---------------------------------------------------------------------------
  // Exams
  // ---------------------------------------------------------------------------

  const Uff := "UFF"
  const Estacio := "Estácio de Sá"

  /** `${n}º Sem`. */
  function Semester(n: nat): string {
    NatToString(n) + "º Sem"
  }

  /** The first and second semester labels are "1º Sem" and "2º Sem". */
  lemma SemesterLabels()
    ensures Semester(1) == "1º Sem" && Semester(2) == "2º Sem"
    ensures Semester(1) != Semester(2)
  {
    assert NatToString(1) == "1" && NatToString(2) == "2";
    assert Semester(1)[0] != Semester(2)[0];
  }

  /** Different semester numbers give different labels. */
  lemma SemestersDistinct(m: nat, n: nat)
    requires m != n
    ensures Semester(m) != Semester(n)
  {
    if Semester(m) == Semester(n) {
      assert Semester(m)[..|NatToString(m)|] == NatToString(m);
      assert Semester(n)[..|NatToString(n)|] == NatToString(n);
      if |NatToString(m)| == |NatToString(n)| {
        NatToStringInjective(m, n);
      }
    }
  }

  /** The UFF exam pushed for the subject at `index`. */
  function UffExam(subject: string, index: nat): Exam {
    Exam("uff-" + NatToString(index), Uff, subject, 2020 + index % 4, Semester(index % 2 + 1), "#")
  }

  /** The Estácio exam pushed right after it. */
  function EstacioExam(subject: string, index: nat): Exam {
    Exam("est-" + NatToString(index), Estacio, subject, 2019 + index % 5, Semester((index + 1) % 2 + 1), "#")
  }

  /** The exams pushed for the first n subjects: a UFF exam then an Estácio exam per subject. */
  function ExamCatalogue(subjects: seq<string>, n: nat): (r: seq<Exam>)
    requires n <= |subjects|
    ensures |r| == 2 * n
  {
    if n == 0 then []
    else ExamCatalogue(subjects, n - 1) + [UffExam(subjects[n - 1], n - 1), EstacioExam(subjects[n - 1], n - 1)]
  }

  /** `generateExams`: push two exams per subject, in subject order. */
  method GenerateExams(subjects: seq<string>) returns (exams: seq<Exam>)
    ensures exams == ExamCatalogue(subjects, |subjects|)
    ensures |exams| == 2 * |subjects|
    ensures forall i :: 0 <= i < |subjects| ==>
      exams[2 * i] == UffExam(subjects[i], i) && exams[2 * i + 1] == EstacioExam(subjects[i], i)
  {
    exams := [];
    var index := 0;
    while index < |subjects|
      invariant 0 <= index <= |subjects|
      invariant exams == ExamCatalogue(subjects, index)
    {
      exams := exams + [UffExam(subjects[index], index)];
      exams := exams + [EstacioExam(subjects[index], index)];
      index := index + 1;
    }
    CatalogueLayout(subjects, |subjects|);
  }

  /** Position 2i holds subject i's UFF exam and position 2i+1 its Estácio exam. */
  lemma {:induction false} PairAt(subjects: seq<string>, n: nat, i: nat)
    requires i < n <= |subjects|
    ensures ExamCatalogue(subjects, n)[2 * i] == UffExam(subjects[i], i)
    ensures ExamCatalogue(subjects, n)[2 * i + 1] == EstacioExam(subjects[i], i)
  {
    var prev := ExamCatalogue(subjects, n - 1);
    var r := ExamCatalogue(subjects, n);
    assert r == prev + [UffExam(subjects[n - 1], n - 1), EstacioExam(subjects[n - 1], n - 1)];
    if i < n - 1 {
      PairAt(subjects, n - 1, i);
      assert r[2 * i] == prev[2 * i] && r[2 * i + 1] == prev[2 * i + 1];
    }
  }

  lemma CatalogueLayout(subjects: seq<string>, n: nat)
    requires n <= |subjects|
    ensures forall i :: 0 <= i < n ==>
      ExamCatalogue(subjects, n)[2 * i] == UffExam(subjects[i], i)
      && ExamCatalogue(subjects, n)[2 * i + 1] == EstacioExam(subjects[i], i)
  {
    forall i | 0 <= i < n
      ensures ExamCatalogue(subjects, n)[2 * i] == UffExam(subjects[i], i)
      ensures ExamCatalogue(subjects, n)[2 * i + 1] == EstacioExam(subjects[i], i)
    {
      PairAt(subjects, n, i);
    }
  }

  /** The exam at position k of the whole catalogue. */
  lemma ExamAt(subjects: seq<string>, k: nat)
    requires k < 2 * |subjects|
    ensures var e := ExamCatalogue(subjects, |subjects|)[k];
      e == if k % 2 == 0 then UffExam(subjects[k / 2], k / 2) else EstacioExam(subjects[k / 2], k / 2)
  {
    var i := k / 2;
    PairAt(subjects, |subjects|, i);
    assert k == 2 * i || k == 2 * i + 1;
  }

  /** Exams alternate UFF, Estácio; each carries its subject; years stay in 2020..2023 and 2019..2023. */
  lemma ExamFields(subjects: seq<string>, k: nat)
    requires k < 2 * |subjects|
    ensures var e := ExamCatalogue(subjects, |subjects|)[k];
      && e.subject == subjects[k / 2]
      && e.university == (if k % 2 == 0 then Uff else Estacio)
      && (k % 2 == 0 ==> 2020 <= e.year <= 2023)
      && (k % 2 == 1 ==> 2019 <= e.year <= 2023)
      && e.url == "#"
  {
    ExamAt(subjects, k);
  }

  /** The two exams of one subject fall in different semesters, one in each. */
  lemma SubjectSemestersDiffer(subjects: seq<string>, i: nat)
    requires i < |subjects|
    ensures var r := ExamCatalogue(subjects, |subjects|);
      && r[2 * i].period == Semester(i % 2 + 1)
      && r[2 * i + 1].period == Semester((i + 1) % 2 + 1)
      && r[2 * i].period != r[2 * i + 1].period
  {
    var p, q := i % 2 + 1, (i + 1) % 2 + 1;
    assert p != q by {
      ParityFlips(i);
    }
    SemestersDistinct(p, q);
    PairAt(subjects, |subjects|, i);
  }

  lemma ParityFlips(i: nat)
    ensures (i + 1) % 2 == 1 - i % 2
  {
  }

  /** No two exams of the catalogue share an id. */
  lemma ExamIdsDistinct(subjects: seq<string>)
    ensures var r := ExamCatalogue(subjects, |subjects|);
      forall a, b :: 0 <= a < b < |r| ==> r[a].id != r[b].id
  {
    var r := ExamCatalogue(subjects, |subjects|);
    forall a, b | 0 <= a < b < |r| ensures r[a].id != r[b].id {
      ExamIdsDiffer(subjects, a, b);
    }
  }

  lemma ExamIdsDiffer(subjects: seq<string>, a: nat, b: nat)
    requires a < b < 2 * |subjects|
    ensures ExamCatalogue(subjects, |subjects|)[a].id != ExamCatalogue(subjects, |subjects|)[b].id
  {
    ExamAt(subjects, a);
    ExamAt(subjects, b);
    var ea, eb := ExamCatalogue(subjects, |subjects|)[a], ExamCatalogue(subjects, |subjects|)[b];
    if a % 2 == b % 2 {
      assert a / 2 != b / 2;
      PrefixedNumbersDistinct(if a % 2 == 0 then "uff-" else "est-", a / 2, b / 2);
    } else {
      assert ea.id[0] != eb.id[0];
    }
  }

  /** The built-in catalogue holds 244 exams. */
  lemma MockExamsSize()
    ensures |ExamCatalogue(SubjectsList, |SubjectsList|)| == 244
  {
    SubjectsListSize();
  }

  // ---------------------------------------------------------------------------
  // Learning modules
  // ---------------------------------------------------------------------------

  /** The description of a module is this text, then the subject, then a full stop. */
  const DescriptionLead := "Módulo completo: Teoria, exercícios resolvidos e aplicações práticas de "

  /** A value of `Math.random()`. */
  predicate IsDraw(x: real) {
    0.0 <= x < 1.0
  }

  /** `Math.floor(x * 80) + 10` for a draw x. */
  function ProgressFrom(x: real): (r: int)
    requires IsDraw(x)
    ensures 10 <= r <= 89
  {
    (x * 80.0).Floor + 10
  }

  /** `Math.floor(x * 5)` for a draw x. */
  function CompletedFrom(x: real): (r: int)
    requires IsDraw(x)
    ensures 0 <= r <= 4
  {
    (x * 5.0).Floor
  }

  /**
   * The module generated for the subject at `index`; the draws stand for the
   * two `Math.random()` calls, used only when the index is a multiple of 7
   * and not of 13.
   */
  function ModuleFor(subject: string, index: nat, progressDraw: real, completedDraw: real): (r: LearningModule)
    requires IsDraw(progressDraw) && IsDraw(completedDraw)
    ensures r.id == "lm-" + NatToString(index) && r.title == subject && r.totalLessons == 12 + index % 8
    ensures index % 13 == 0 ==> r.progress == 100 && r.completedLessons == r.totalLessons
    ensures index % 13 != 0 && index % 7 != 0 ==> r.progress == 0 && r.completedLessons == 0
    ensures index % 13 != 0 && index % 7 == 0 ==> 10 <= r.progress <= 89 && 0 <= r.completedLessons <= 4
  {
    LearningModule(
      "lm-" + NatToString(index),
      subject,
      DescriptionLead + subject + ".",
      if index % 13 == 0 then 100 else if index % 7 == 0 then ProgressFrom(progressDraw) else 0,
      12 + index % 8,
      if index % 13 == 0 then 12 + index % 8 else if index % 7 == 0 then CompletedFrom(completedDraw) else 0)
  }

  /** `generateModules`: one module per subject, in subject order. */
  function GenerateModules(subjects: seq<string>, progressDraws: seq<real>, completedDraws: seq<real>): (r: seq<LearningModule>)
    requires |progressDraws| == |subjects| && |completedDraws| == |subjects|
    requires forall i :: 0 <= i < |subjects| ==> IsDraw(progressDraws[i]) && IsDraw(completedDraws[i])
    ensures |r| == |subjects|
    ensures forall i :: 0 <= i < |r| ==>
      r[i].id == "lm-" + NatToString(i) && r[i].title == subjects[i] && 12 <= r[i].totalLessons <= 19
    ensures forall i :: 0 <= i < |r| ==> ValidModule(r[i]) && 0 <= r[i].completedLessons <= r[i].totalLessons
  {
    seq(|subjects|, i requires 0 <= i < |subjects| => ModuleFor(subjects[i], i, progressDraws[i], completedDraws[i]))
  }

  /** No two generated modules share an id. */
  lemma ModuleIdsDistinct(subjects: seq<string>, progressDraws: seq<real>, completedDraws: seq<real>)
    requires |progressDraws| == |subjects| && |completedDraws| == |subjects|
    requires forall i :: 0 <= i < |subjects| ==> IsDraw(progressDraws[i]) && IsDraw(completedDraws[i])
    ensures var r := GenerateModules(subjects, progressDraws, completedDraws);
      forall a, b :: 0 <= a < b < |r| ==> r[a].id != r[b].id
  {
    var r := GenerateModules(subjects, progressDraws, completedDraws);
    forall a, b | 0 <= a < b < |r| ensures r[a].id != r[b].id {
      PrefixedNumbersDistinct("lm-", a, b);
    }
  }

  // ---------------------------------------------------------------------------
  // Seed statistics and the built-in question bank
  // ---------------------------------------------------------------------------

  /** `MOCK_STATS`. */
  const MockStats := UserStats(342, 76, 12, [
    TopicScore("Circuitos Elétricos", 85),
    TopicScore("Eletromagnetismo", 60),
    TopicScore("Sistemas de Controle", 72),
    TopicScore("Eletrônica Digital", 90),
    TopicScore("Sistemas de Potência", 65)])

  lemma MockStatsValid()
    ensures ValidStats(MockStats)
  {
  }

  /** `QUESTION_BANK_DATA`. */
  const QuestionBankData: seq<Question> := [
      Question(
        "q1",
        "Circuitos Elétricos",
        "Fácil",
        "Em um circuito RLC série operando em ressonância, qual é a relação entre a reatância indutiva (XL) e a reatância capacitiva (XC)?",
        [
          "XL > XC",
          "XL < XC",
          "XL = XC",
          "XL = 0 e XC = 0"
        ],
        2,
        "Na ressonância de um circuito RLC série, as reatâncias indutiva e capacitiva se anulam, ou seja, XL = XC. Isso faz com que a impedância total seja puramente resistiva e mínima."),
      Question(
        "q2",
        "Eletrônica Digital",
        "Médio",
        "Qual porta lógica produz uma saída ALTA (1) apenas quando ambas as entradas são BAIXAS (0)?",
        [
          "NAND",
          "NOR",
          "XOR",
          "AND"
        ],
        1,
        "A porta NOR (NOT OR) é o inverso da porta OR. A porta OR produz 0 apenas quando ambas as entradas são 0. Logo, a porta NOR produz 1 apenas quando ambas as entradas são 0."),
      Question(
        "q3",
        "Sistemas de Controle",
        "Difícil",
        "Considere um sistema de controle com realimentação negativa. O que acontece com a estabilidade do sistema se os polos da malha fechada estiverem localizados no semiplano direito do plano S?",
        [
          "O sistema é marginalmente estável.",
          "O sistema é assintoticamente estável.",
          "O sistema é instável.",
          "A estabilidade depende dos zeros do sistema."
        ],
        2,
        "Para um sistema linear invariante no tempo contínuo ser estável, todos os polos da função de transferência de malha fechada devem ter parte real estritamente negativa (localizados no semiplano esquerdo). Polos no semiplano direito indicam instabilidade exponencial."),
      Question(
        "q4",
        "Sistemas de Potência",
        "Médio",
        "Qual é a principal função de um relé Buchholz em um transformador de potência?",
        [
          "Proteger contra sobrecorrente externa.",
          "Regular a tensão de saída.",
          "Detectar falhas internas incipientes (acúmulo de gás) e perda de óleo.",
          "Resfriar o núcleo do transformador."
        ],
        2,
        "O relé Buchholz é um dispositivo de segurança montado em transformadores a óleo. Ele detecta o acúmulo de gás proveniente de pequenas falhas internas (decomposição do óleo) ou a perda súbita de óleo, disparando alarmes ou desconectando o transformador."),
      Question(
        "q5",
        "Eletromagnetismo",
        "Difícil",
        "De acordo com a Lei de Faraday, a força eletromotriz (FEM) induzida em uma espira fechada é proporcional a:",
        [
          "Taxa de variação da corrente elétrica.",
          "Taxa de variação do fluxo magnético através da espira.",
          "Intensidade do campo magnético constante.",
          "Resistência do material da espira."
        ],
        1,
        "A Lei de Faraday da indução afirma que a magnitude da força eletromotriz induzida em um circuito é igual à taxa de variação temporal do fluxo magnético através do circuito.")
  ]

  /** Every built-in question has four options and an answer index into them; the ids are distinct. */
  lemma QuestionBankWellFormed()
    ensures |QuestionBankData| == 5
    ensures forall i :: 0 <= i < |QuestionBankData| ==>
      |QuestionBankData[i].options| == 4 && WellFormedQuestion(QuestionBankData[i])
    ensures forall a, b :: 0 <= a < b < |QuestionBankData| ==> QuestionBankData[a].id != QuestionBankData[b].id
  {
  }
}
