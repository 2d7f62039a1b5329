/** The seed list used when nothing is stored: nine pending tasks. */
module MockData {
  import opened Wrappers
  import opened Tasks
  import opened Validation
  import opened TaskValidation
  import UseTasks
  import Seqs

  const Descriptions: seq<string> := [
    "Comprar leche y huevos en el supermercado",
    "Terminar el m\U{00F3}dulo de React Native para el viernes",
    "Llamar al dentista para agendar cita",
    "Pagar la factura de electricidad de este mes",
    "Hacer 30 minutos de ejercicio (cardio)",
    "Leer el cap\U{00ED}tulo 5 del libro \"Clean Code\"",
    "Enviar el reporte semanal al gerente",
    "Regar las plantas y abonar el jard\U{00ED}n",
    "Organizar y limpiar el escritorio de la oficina"
  ]

  /** The seed list; `ids` stands for the nine random ids generated at load time. */
  function Seed(ids: seq<string>): (tasks: seq<Task>)
    requires |ids| == |Descriptions|
    ensures |tasks| == 9
    ensures forall i :: 0 <= i < |tasks| ==> tasks[i].id == ids[i] && !tasks[i].isCompleted
  {
    seq(|ids|, i requires 0 <= i < |ids| => Task(ids[i], Descriptions[i], false))
  }

  /** The tabs of the seed list read 9 / 0 / 9. */
  lemma SeedCounts(ids: seq<string>)
    requires |ids| == |Descriptions|
    ensures UseTasks.GetTaskCounts(Seed(ids)) == TaskCounts(9, 0, 9)
  {
    var tasks := Seed(ids);
    CountNone(tasks);
  }

  lemma {:induction false} CountNone(tasks: seq<Task>)
    requires forall i :: 0 <= i < |tasks| ==> !tasks[i].isCompleted
    ensures Seqs.Count(tasks, IsCompleted) == 0
  {
    if |tasks| > 0 {
      CountNone(tasks[1..]);
    }
  }

  /** The seed contains a text the input would reject: parentheses are outside the accepted class. */
  lemma SeedFailsValidation()
    ensures ValidateTask(Descriptions[4]) == Some(InvalidChars)
  {
    var d := Descriptions[4];
    assert d == "Hacer 30 minutos de ejercicio (cardio)";
    TrimOfTrimmed(d);
    assert d[30] == '(' && !InPatternClass(d[30]);
    assert ValidateTask(d) == Classify(d);
  }
}
