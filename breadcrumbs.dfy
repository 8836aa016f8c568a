/**
 * The breadcrumb trail above every screen but the dashboard
 * (components/features/Breadcrumbs.tsx): "Painel Geral", the screen's label,
 * and a third crumb while a student is selected or a student or user is
 * being edited.
 */
module Breadcrumbs {
  import opened Wrappers
  import opened Domain

  /** The navigation state the trail reads and its buttons set. */
  datatype Navigation = Navigation(
    view: string,
    selectedStudent: Option<Student>,
    isEditingStudent: bool,
    isEditingUser: bool,
    tempStudentId: string,
    tempUserId: string)

  /** `viewLabels[view]`; None where the record has no entry (the
      coordination screen), which renders as nothing. */
  function ViewLabel(view: string): Option<string>
  {
    if view == "students" then Some("Alunos")
    else if view == "attendance" then Some("Frequência")
    else if view == "health" then Some("Documentos")
    else if view == "exams" then Some("Segunda Chamada")
    else if view == "reports" then Some("Relatórios IA")
    else if view == "users" then Some("Usuários")
    else if view == "pedagogical" then Some("Pedagógico")
    else if view == "network" then Some("Diagnóstico de Rede")
    else None
  }

  /** What the trail shows after the root crumb. */
  datatype Trail = Trail(viewLabel: Option<string>, viewDisabled: bool, third: Option<string>)

  /** Something is open below the screen: a selected student or an edit. */
  predicate Deep(nav: Navigation)
  {
    nav.selectedStudent.Some? || nav.isEditingStudent || nav.isEditingUser
  }

  /** The label of the third crumb. */
  function ThirdLabel(nav: Navigation): string
    requires Deep(nav)
  {
    if nav.isEditingStudent then (if nav.tempStudentId != "" then "Editar Aluno" else "Novo Aluno")
    else if nav.isEditingUser then (if nav.tempUserId != "" then "Editar Usuário" else "Novo Usuário")
    else nav.selectedStudent.value.name
  }

  /** The component: nothing on the dashboard. */
  function Render(nav: Navigation): (r: Option<Trail>)
  {
    if nav.view == "dashboard" then None
    else Some(Trail(ViewLabel(nav.view), !Deep(nav), if Deep(nav) then Some(ThirdLabel(nav)) else None))
  }

  /** Nothing is rendered exactly on the dashboard; the third crumb is there
      iff a student is selected or a student or user is being edited, and the
      view crumb is disabled exactly when it is not; editing a student wins
      over editing a user, which wins over the selected student's name. */
  lemma {:induction false} RenderSpec(nav: Navigation)
    ensures Render(nav).None? <==> nav.view == "dashboard"
    ensures Render(nav).Some? ==>
      var t := Render(nav).value;
      && (t.third.Some? <==> nav.selectedStudent.Some? || nav.isEditingStudent || nav.isEditingUser)
      && (t.viewDisabled <==> t.third.None?)
      && (nav.isEditingStudent ==>
            t.third == Some(if nav.tempStudentId != "" then "Editar Aluno" else "Novo Aluno"))
      && (!nav.isEditingStudent && nav.isEditingUser ==>
            t.third == Some(if nav.tempUserId != "" then "Editar Usuário" else "Novo Usuário"))
      && (!nav.isEditingStudent && !nav.isEditingUser && nav.selectedStudent.Some? ==>
            t.third == Some(nav.selectedStudent.value.name))
  {
  }

  /** The root crumb: back to the dashboard, no selected student, not editing
      a student. The user-editing flag is left as it was. */
  function ClickRoot(nav: Navigation): (next: Navigation)
  {
    nav.(view := "dashboard", selectedStudent := None, isEditingStudent := false)
  }

  /** The view crumb: the same screen with nothing selected or edited. */
  function ClickView(nav: Navigation): (next: Navigation)
  {
    nav.(selectedStudent := None, isEditingStudent := false, isEditingUser := false)
  }

  /** After the root crumb the trail disappears; after the view crumb the
      same screen shows its label alone, with the view crumb disabled;
      clicking either twice is clicking it once. */
  lemma {:induction false} ClickSpec(nav: Navigation)
    ensures Render(ClickRoot(nav)).None?
    ensures ClickRoot(nav).isEditingUser == nav.isEditingUser
    ensures nav.view != "dashboard" ==>
      Render(ClickView(nav)) == Some(Trail(ViewLabel(nav.view), true, None))
    ensures ClickRoot(ClickRoot(nav)) == ClickRoot(nav)
    ensures ClickView(ClickView(nav)) == ClickView(nav)
  {
  }
}
